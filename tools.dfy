/**
 * The "Recommended Modding Tools" window of src/tools.py: two buttons whose
 * state follows two download flags kept in settings.json, and the download
 * thread that streams an archive to disk, unpacks it under
 * additional_programs and deletes it.
 *
 * The HTTP response becomes its content-length header and its chunks;
 * filesystem calls, the settings file and the message box become effects.
 */
module ModdingTools {
  import opened Paths

  type Byte = bv8

  /** The settings record as loaded from settings.json: flag name to value. */
  type Settings = map<string, bool>

  const UABEA_KEY := "UABEA_downloaded"
  const ASSET_STUDIO_KEY := "AssetStudio_downloaded"
  const PROGRAMS_DIR := "additional_programs"
  const UABEA_URL: string := "https://github.com/nesrak1/UABEA/releases/download/v7/uabea-windows.zip"
  const ASSET_STUDIO_URL: string := "https://github.com/Perfare/AssetStudio/releases/download/v0.16.47/AssetStudio.net6.v0.16.47.zip"
  const UABEA_PROGRAM: string := "additional_programs/UABEA/UABEAvalonia.exe"
  const ASSET_STUDIO_PROGRAM: string := "additional_programs/AssetStudio/AssetStudioGUI.exe"

  /** `settings.get(key)` is truthy: the key is present and set. */
  predicate Flag(s: Settings, key: string) {
    key in s && s[key]
  }

  datatype Effect =
    /** A `QMessageBox.information` box. */
    | Notice(title: string, text: string)
    /** settings.json is rewritten with the record. */
    | SaveSettings(settings: Settings)
    /** `requests.get(url, stream=True)`. */
    | Request(url: string)
    /** `os.makedirs(path, exist_ok=True)`. */
    | MakeDirs(path: Path)
    /** `open(path, "wb")`: the archive is created empty. */
    | OpenForWrite(path: Path)
    /** `file.write(data)`. */
    | WriteChunk(path: Path, data: seq<Byte>)
    /** The progress signal, carrying the two operands of its percentage. */
    | Progress(downloaded: nat, total: nat)
    /**
     * `zipfile.ZipFile(archive, "r")` is opened and `extractall(dir)` called
     * on it: one effect, whose single outcome covers both calls.
     */
    | Extract(archive: Path, dir: Path)
    /** `os.remove(path)`. */
    | RemoveFile(path: Path)

  // ---------------------------------------------------------------------
  // Settings and buttons

  /** `load_settings`: the stored record, or both flags False when there is no settings file. */
  function LoadedSettings(stored: Option<Settings>): (s: Settings)
    ensures stored.Some? ==> s == stored.value
    ensures stored.None? ==> s.Keys == {UABEA_KEY, ASSET_STUDIO_KEY} && !Flag(s, UABEA_KEY) && !Flag(s, ASSET_STUDIO_KEY)
  {
    if stored.Some? then stored.value else map[UABEA_KEY := false, ASSET_STUDIO_KEY := false]
  }

  /** The two programs the window offers. */
  datatype Tool = UABEA | AssetStudio {
    /** The name on its buttons and the folder it is unpacked into. */
    function Name(): string {
      match this
      case UABEA => "UABEA"
      case AssetStudio => "AssetStudio"
    }

    /** Its download flag. */
    function Key(): string {
      match this
      case UABEA => UABEA_KEY
      case AssetStudio => ASSET_STUDIO_KEY
    }

    function Url(): string {
      match this
      case UABEA => UABEA_URL
      case AssetStudio => ASSET_STUDIO_URL
    }

    /** The archive it is downloaded into. */
    function Archive(): string {
      match this
      case UABEA => "UABEA.zip"
      case AssetStudio => "AssetStudio.zip"
    }

    /** The executable its "Open" button starts. */
    function Program(): string {
      match this
      case UABEA => UABEA_PROGRAM
      case AssetStudio => ASSET_STUDIO_PROGRAM
    }
  }

  /** The tool whose folder name is `folderName`, if any. */
  function ToolOf(folderName: string): (t: Option<Tool>)
    ensures t.Some? <==> folderName == UABEA.Name() || folderName == AssetStudio.Name()
    ensures t.Some? ==> t.value.Name() == folderName
  {
    if folderName == "UABEA" then Some(UABEA)
    else if folderName == "AssetStudio" then Some(AssetStudio)
    else None
  }

  /** What a click does: start the program, or download it. */
  datatype Action =
    | Launch(program: string)
    | Download(url: string, filename: string, folderName: string)

  datatype Button = Button(text: string, onClick: Action)

  /** The button of a downloaded tool. */
  function OpenButton(t: Tool): Button {
    Button("Open " + t.Name(), Launch(t.Program()))
  }

  /** The button of a tool not yet downloaded: its URL, archive and folder. */
  function DownloadButton(t: Tool): Button {
    Button("Download " + t.Name(), Download(t.Url(), t.Archive(), t.Name()))
  }

  /** The button `init_ui` builds for `t`: "Open" exactly when its flag is truthy, "Download" otherwise. */
  function ButtonFor(t: Tool, s: Settings): (b: Button)
    ensures b.onClick.Launch? <==> Flag(s, t.Key())
    ensures b.onClick.Launch? ==> b == OpenButton(t)
    ensures b.onClick.Download? ==> b == DownloadButton(t)
  {
    if Flag(s, t.Key()) then OpenButton(t) else DownloadButton(t)
  }

  /** The button reads "Open <tool>" exactly when the flag is truthy, and "Download <tool>" exactly when it is not. */
  lemma ButtonText(t: Tool, s: Settings)
    ensures ButtonFor(t, s).text == "Open " + t.Name() <==> Flag(s, t.Key())
    ensures ButtonFor(t, s).text == "Download " + t.Name() <==> !Flag(s, t.Key())
  {
    assert ("Open " + t.Name())[0] != ("Download " + t.Name())[0];
  }

  /**
   * The flag update of `on_download_complete`: the flag of the tool named
   * `folderName` becomes True; any other name changes nothing.
   */
  function CompletedSettings(s: Settings, folderName: string): (r: Settings)
    ensures ToolOf(folderName).Some? ==> Flag(r, ToolOf(folderName).value.Key())
    ensures ToolOf(folderName).None? ==> r == s
    ensures forall k :: Flag(s, k) ==> Flag(r, k)
    ensures forall k :: k in s ==> k in r
    ensures forall k :: (ToolOf(folderName).None? || k != ToolOf(folderName).value.Key()) ==>
                        (k in r <==> k in s) && (k in s ==> r[k] == s[k])
  {
    match ToolOf(folderName)
    case None => s
    case Some(t) => s[t.Key() := true]
  }

  /** The settings after a series of completions, in order. */
  function CompleteAll(s: Settings, folderNames: seq<string>): Settings
    decreases |folderNames|
  {
    if folderNames == [] then s
    else CompleteAll(CompletedSettings(s, folderNames[0]), folderNames[1..])
  }

  /** No series of completions sets a flag back to False. */
  lemma {:induction false} FlagsOnlyRise(s: Settings, folderNames: seq<string>, key: string)
    requires Flag(s, key)
    ensures Flag(CompleteAll(s, folderNames), key)
    decreases |folderNames|
  {
    if folderNames != [] {
      FlagsOnlyRise(CompletedSettings(s, folderNames[0]), folderNames[1..], key);
    }
  }

  /** A series of completions raises exactly the flags of the tools it names, and changes no other key. */
  lemma {:induction false} CompletedFlags(s: Settings, folderNames: seq<string>, t: Tool)
    ensures Flag(CompleteAll(s, folderNames), t.Key()) <==> Flag(s, t.Key()) || t.Name() in folderNames
    decreases |folderNames|
  {
    if folderNames != [] {
      var next := CompletedSettings(s, folderNames[0]);
      CompletedFlags(next, folderNames[1..], t);
      assert folderNames == [folderNames[0]] + folderNames[1..];
      if folderNames[0] == t.Name() {
        assert ToolOf(folderNames[0]) == Some(t);
      } else if ToolOf(folderNames[0]).Some? {
        var u := ToolOf(folderNames[0]).value;
        assert u != t && u.Key() != t.Key();
      }
    }
  }

  /** Completing the download a tool's Download button starts turns that button into its Open button, and leaves the other tool's. */
  lemma DownloadButtonCompletes(t: Tool, other: Tool, s: Settings)
    requires !Flag(s, t.Key()) && other != t
    ensures var b := ButtonFor(t, s);
            b.onClick.Download? &&
            var r := CompletedSettings(s, b.onClick.folderName);
            ButtonFor(t, r) == OpenButton(t) && ButtonFor(other, r) == ButtonFor(other, s)
  {
    assert ToolOf(t.Name()) == Some(t);
    assert other.Key() != t.Key();
  }

  // ---------------------------------------------------------------------
  // DownloadThread.run

  /** `int(response.headers.get("content-length", 0))`. */
  function TotalSize(contentLength: Option<nat>): nat {
    if contentLength.Some? then contentLength.value else 0
  }

  /** The sum of the chunk lengths. */
  function TotalLength(chunks: seq<seq<Byte>>): nat
    decreases |chunks|
  {
    if chunks == [] then 0 else TotalLength(chunks[..|chunks| - 1]) + |chunks[|chunks| - 1]|
  }

  /** The chunks one after the other: what the response body holds. */
  function Flatten(chunks: seq<seq<Byte>>): seq<Byte>
    decreases |chunks|
  {
    if chunks == [] then [] else Flatten(chunks[..|chunks| - 1]) + chunks[|chunks| - 1]
  }

  /** The bytes written to `path`, in order. */
  function Written(effects: seq<Effect>, path: Path): seq<Byte>
    decreases |effects|
  {
    if effects == [] then []
    else
      var e := effects[|effects| - 1];
      Written(effects[..|effects| - 1], path) + if e.WriteChunk? && e.path == path then e.data else []
  }

  /** The write loop when no division fails: each chunk is written, then its progress reported. */
  function StreamEffects(filename: Path, chunks: seq<seq<Byte>>, total: nat): (es: seq<Effect>)
    ensures |es| == 2 * |chunks|
    decreases |chunks|
  {
    if chunks == [] then []
    else
      StreamEffects(filename, chunks[..|chunks| - 1], total) +
      [WriteChunk(filename, chunks[|chunks| - 1]), Progress(TotalLength(chunks), total)]
  }

  /** Why `run` raised. */
  datatype RunError =
    | ZeroDivision    // `downloaded_size / total_size` with `total_size` 0
    | ExtractFailed   // `extractall` raised

  datatype RunResult = RunResult(effects: seq<Effect>, error: Option<RunError>)

  /** The effects before the write loop. */
  function StartEffects(url: string, filename: Path): seq<Effect> {
    [Request(url), MakeDirs(PROGRAMS_DIR), OpenForWrite(filename)]
  }

  /** The folder an archive is unpacked into. */
  function UnzipPath(sep: char, folderName: string): Path {
    Join(sep, PROGRAMS_DIR, folderName)
  }

  /**
   * `run` with the response's `total` size and `chunks`, and `extractOk`
   * whether opening the archive with `zipfile.ZipFile` and `extractall`
   * both return without raising. With a total size of 0 the first chunk is
   * written and the progress line divides by zero.
   */
  function DownloadTrace(sep: char, url: string, filename: Path, folderName: string, total: nat,
                         chunks: seq<seq<Byte>>, extractOk: bool): (r: RunResult)
    ensures r.error == Some(ZeroDivision) <==> total == 0 && chunks != []
    ensures r.error.None? <==> extractOk && !(total == 0 && chunks != [])
    ensures |r.effects| >= 3 && r.effects[..3] == StartEffects(url, filename)
  {
    var start := StartEffects(url, filename);
    if total == 0 && chunks != [] then RunResult(start + [WriteChunk(filename, chunks[0])], Some(ZeroDivision))
    else
      var unzip := UnzipPath(sep, folderName);
      var extracted := start + StreamEffects(filename, chunks, total) + [MakeDirs(unzip), Extract(filename, unzip)];
      if extractOk then RunResult(extracted + [RemoveFile(filename)], None)
      else RunResult(extracted, Some(ExtractFailed))
  }

  lemma {:induction false} WrittenAppend(a: seq<Effect>, b: seq<Effect>, path: Path)
    ensures Written(a + b, path) == Written(a, path) + Written(b, path)
    decreases |b|
  {
    if b == [] {
      assert a + b == a;
    } else {
      var last := b[|b| - 1];
      assert (a + b)[..|a + b| - 1] == a + b[..|b| - 1];
      WrittenAppend(a, b[..|b| - 1], path);
      var tail := if last.WriteChunk? && last.path == path then last.data else [];
      assert Written(a + b, path) == Written(a + b[..|b| - 1], path) + tail;
    }
  }

  /** A one-effect log writes what that effect writes. */
  lemma WrittenSingle(e: Effect, path: Path)
    ensures Written([e], path) == if e.WriteChunk? && e.path == path then e.data else []
  {
    assert [e][..0] == [];
  }

  /**
   * The write loop writes the k-th chunk as its 2k-th effect and then
   * reports the sum of the first k+1 chunk lengths.
   */
  lemma {:induction false} StreamEffectsAt(filename: Path, chunks: seq<seq<Byte>>, total: nat)
    ensures var es := StreamEffects(filename, chunks, total);
            forall k :: 0 <= k < |chunks| ==>
              es[2 * k] == WriteChunk(filename, chunks[k]) &&
              es[2 * k + 1] == Progress(TotalLength(chunks[..k + 1]), total)
    decreases |chunks|
  {
    if chunks != [] {
      var init := chunks[..|chunks| - 1];
      StreamEffectsAt(filename, init, total);
      var before := StreamEffects(filename, init, total);
      var es := StreamEffects(filename, chunks, total);
      assert es == before + [WriteChunk(filename, chunks[|init|]), Progress(TotalLength(chunks), total)];
      forall k | 0 <= k < |chunks|
        ensures es[2 * k] == WriteChunk(filename, chunks[k])
        ensures es[2 * k + 1] == Progress(TotalLength(chunks[..k + 1]), total)
      {
        if k < |init| {
          assert es[2 * k] == before[2 * k] && es[2 * k + 1] == before[2 * k + 1];
          assert chunks[k] == init[k] && chunks[..k + 1] == init[..k + 1];
        } else {
          assert chunks[..k + 1] == chunks;
        }
      }
    }
  }

  /** All the write loop writes is the response body, in order. */
  lemma {:induction false} StreamWritesBody(filename: Path, chunks: seq<seq<Byte>>, total: nat)
    ensures Written(StreamEffects(filename, chunks, total), filename) == Flatten(chunks)
    decreases |chunks|
  {
    if chunks != [] {
      var init := chunks[..|chunks| - 1];
      var w := WriteChunk(filename, chunks[|chunks| - 1]);
      var p := Progress(TotalLength(chunks), total);
      var before := StreamEffects(filename, init, total);
      StreamWritesBody(filename, init, total);
      assert StreamEffects(filename, chunks, total) == (before + [w]) + [p];
      WrittenAppend(before + [w], [p], filename);
      WrittenAppend(before, [w], filename);
      WrittenSingle(w, filename);
      WrittenSingle(p, filename);
    }
  }

  /** The accumulated size after all chunks is the length of the body. */
  lemma {:induction false} TotalLengthFlatten(chunks: seq<seq<Byte>>)
    ensures TotalLength(chunks) == |Flatten(chunks)|
    decreases |chunks|
  {
    if chunks != [] {
      TotalLengthFlatten(chunks[..|chunks| - 1]);
    }
  }

  /** The write loop only writes and reports progress. */
  lemma {:induction false} StreamEffectsKinds(filename: Path, chunks: seq<seq<Byte>>, total: nat)
    ensures forall e :: e in StreamEffects(filename, chunks, total) ==> e.WriteChunk? || e.Progress?
    decreases |chunks|
  {
    if chunks != [] {
      StreamEffectsKinds(filename, chunks[..|chunks| - 1], total);
    }
  }

  /** Effects that write nothing add nothing to what is written. */
  lemma {:induction false} WrittenNone(effects: seq<Effect>, path: Path)
    requires forall i :: 0 <= i < |effects| ==> !effects[i].WriteChunk?
    ensures Written(effects, path) == []
    decreases |effects|
  {
    if effects != [] {
      WrittenNone(effects[..|effects| - 1], path);
    }
  }

  /** The effects of a run that reaches extraction. */
  lemma DownloadShape(sep: char, url: string, filename: Path, folderName: string, total: nat,
                      chunks: seq<seq<Byte>>, extractOk: bool)
    requires total > 0 || chunks == []
    ensures var unzip := UnzipPath(sep, folderName);
            DownloadTrace(sep, url, filename, folderName, total, chunks, extractOk).effects ==
            StartEffects(url, filename) + StreamEffects(filename, chunks, total) +
            [MakeDirs(unzip), Extract(filename, unzip)] + (if extractOk then [RemoveFile(filename)] else [])
  {
  }

  /**
   * A run that reaches extraction extracts once, after every write; the
   * archive is removed exactly when extraction succeeded, as the last effect.
   */
  lemma DownloadOrder(sep: char, url: string, filename: Path, folderName: string, total: nat,
                      chunks: seq<seq<Byte>>, extractOk: bool)
    requires total > 0 || chunks == []
    ensures var r := DownloadTrace(sep, url, filename, folderName, total, chunks, extractOk);
            var x := |r.effects| - (if extractOk then 2 else 1);
            && r.effects[x] == Extract(filename, UnzipPath(sep, folderName))
            && (forall i :: 0 <= i < |r.effects| && r.effects[i].WriteChunk? ==> i < x)
            && (forall i :: 0 <= i < |r.effects| && r.effects[i].Extract? ==> i == x)
            && (RemoveFile(filename) in r.effects <==> extractOk)
            && (extractOk ==> r.effects[|r.effects| - 1] == RemoveFile(filename))
  {
    var r := DownloadTrace(sep, url, filename, folderName, total, chunks, extractOk);
    var start := StartEffects(url, filename);
    var stream := StreamEffects(filename, chunks, total);
    DownloadShape(sep, url, filename, folderName, total, chunks, extractOk);
    StreamEffectsKinds(filename, chunks, total);
    var x := |start| + |stream| + 1;
    forall i | 0 <= i < |r.effects|
      ensures r.effects[i].WriteChunk? ==> i < x
      ensures r.effects[i].Extract? ==> i == x
    {
      if i < |start| {
        assert r.effects[i] == start[i];
      } else if i < |start| + |stream| {
        assert r.effects[i] == stream[i - |start|];
        assert stream[i - |start|] in stream;
      } else {
        assert r.effects[i] in [MakeDirs(UnzipPath(sep, folderName)), Extract(filename, UnzipPath(sep, folderName))] +
                               (if extractOk then [RemoveFile(filename)] else []);
      }
    }
    if !extractOk {
      forall i | 0 <= i < |r.effects|
        ensures r.effects[i] != RemoveFile(filename)
      {
        if i < |start| {
          assert r.effects[i] == start[i];
        } else if i < |start| + |stream| {
          assert r.effects[i] == stream[i - |start|];
          assert stream[i - |start|] in stream;
        }
      }
    }
  }

  /** A run that reaches extraction has written exactly the response body to the archive. */
  lemma DownloadWritesBody(sep: char, url: string, filename: Path, folderName: string, total: nat,
                           chunks: seq<seq<Byte>>, extractOk: bool)
    requires total > 0 || chunks == []
    ensures Written(DownloadTrace(sep, url, filename, folderName, total, chunks, extractOk).effects, filename) ==
            Flatten(chunks)
  {
    var unzip := UnzipPath(sep, folderName);
    var start := StartEffects(url, filename);
    var stream := StreamEffects(filename, chunks, total);
    var tail := [MakeDirs(unzip), Extract(filename, unzip)];
    var rest := if extractOk then [RemoveFile(filename)] else [];
    DownloadShape(sep, url, filename, folderName, total, chunks, extractOk);
    StreamWritesBody(filename, chunks, total);
    WrittenAppend(start + stream + tail, rest, filename);
    WrittenAppend(start + stream, tail, filename);
    WrittenAppend(start, stream, filename);
    WrittenNone(start, filename);
    WrittenNone(tail, filename);
    WrittenNone(rest, filename);
  }

  /**
   * With no content-length, the first chunk arrives, is written, and the
   * division fails: nothing is reported, extracted or removed.
   */
  lemma ZeroLengthFails(sep: char, url: string, filename: Path, folderName: string,
                        chunks: seq<seq<Byte>>, extractOk: bool)
    requires chunks != []
    ensures var r := DownloadTrace(sep, url, filename, folderName, TotalSize(None), chunks, extractOk);
            && r.error == Some(ZeroDivision)
            && (forall e :: e in r.effects ==> !e.Extract? && !e.RemoveFile? && !e.Progress?)
            && Written(r.effects, filename) == chunks[0]
  {
    var start := StartEffects(url, filename);
    var w := WriteChunk(filename, chunks[0]);
    WrittenAppend(start, [w], filename);
    WrittenSingle(w, filename);
    WrittenNone(start, filename);
  }

  class DownloadThread {
    const url: string
    const filename: Path
    const folderName: string

    constructor (url: string, filename: Path, folderName: string)
      ensures this.url == url && this.filename == filename && this.folderName == folderName
    {
      this.url := url;
      this.filename := filename;
      this.folderName := folderName;
    }

    /**
     * `run`, with the response given as its content-length header and its
     * chunks, and the outcome of `extractall`; `os.path.join` uses `sep`.
     */
    method Run(sep: char, contentLength: Option<nat>, chunks: seq<seq<Byte>>, extractOk: bool) returns (r: RunResult)
      ensures r == DownloadTrace(sep, url, filename, folderName, TotalSize(contentLength), chunks, extractOk)
    {
      var effects := [Request(url)];
      var totalSize := if contentLength.Some? then contentLength.value else 0;
      effects := effects + [MakeDirs(PROGRAMS_DIR)];
      effects := effects + [OpenForWrite(filename)];
      var downloadedSize := 0;
      var i := 0;
      while i < |chunks|
        invariant 0 <= i <= |chunks|
        invariant totalSize == 0 ==> i == 0
        invariant downloadedSize == TotalLength(chunks[..i])
        invariant effects == StartEffects(url, filename) + StreamEffects(filename, chunks[..i], totalSize)
      {
        var data := chunks[i];
        assert chunks[..i + 1][..i] == chunks[..i];
        effects := effects + [WriteChunk(filename, data)];
        downloadedSize := downloadedSize + |data|;
        if totalSize == 0 {
          return RunResult(effects, Some(ZeroDivision));
        }
        effects := effects + [Progress(downloadedSize, totalSize)];
        i := i + 1;
      }
      assert chunks[..i] == chunks;
      var unzipPath := Join(sep, PROGRAMS_DIR, folderName);
      effects := effects + [MakeDirs(unzipPath)];
      effects := effects + [Extract(filename, unzipPath)];
      if !extractOk {
        return RunResult(effects, Some(ExtractFailed));
      }
      effects := effects + [RemoveFile(filename)];
      return RunResult(effects, None);
    }
  }

  // ---------------------------------------------------------------------
  // The window

  class Tools {
    /** `self.settings`. */
    var settings: Settings
    var uabeaButton: Button
    var assetStudioButton: Button
    /** The progress bar's value. */
    var progressValue: int
    /** `self.thread`: the latest download. */
    var thread: DownloadThread?
    /** What the window did to the world, in order. */
    var log: seq<Effect>

    /** Each button is the one its tool's flag selects. */
    predicate Valid()
      reads this
    {
      uabeaButton == ButtonFor(UABEA, settings) && assetStudioButton == ButtonFor(AssetStudio, settings)
    }

    /** `__init__`: `stored` is the content of settings.json, None when it does not exist. */
    constructor (stored: Option<Settings>)
      ensures Valid() && settings == LoadedSettings(stored)
      ensures progressValue == 0 && thread == null && log == []
    {
      settings := map[];
      uabeaButton := DownloadButton(UABEA);
      assetStudioButton := DownloadButton(AssetStudio);
      progressValue := 0;
      thread := null;
      log := [];
      new;
      LoadSettings(stored);
      InitUi();
    }

    /** `load_settings`. */
    method LoadSettings(stored: Option<Settings>)
      modifies this
      ensures settings == LoadedSettings(stored)
      ensures uabeaButton == old(uabeaButton) && assetStudioButton == old(assetStudioButton)
      ensures progressValue == old(progressValue) && thread == old(thread) && log == old(log)
    {
      if stored.Some? {
        settings := stored.value;
      } else {
        settings := map[UABEA_KEY := false, ASSET_STUDIO_KEY := false];
      }
    }

    /** `save_settings`: settings.json is rewritten with the record. */
    method SaveSettingsFile()
      modifies this
      ensures log == old(log) + [SaveSettings(settings)]
      ensures settings == old(settings) && uabeaButton == old(uabeaButton) && assetStudioButton == old(assetStudioButton)
      ensures progressValue == old(progressValue) && thread == old(thread)
    {
      log := log + [SaveSettings(settings)];
    }

    /** The buttons and the progress bar of `init_ui`. */
    method InitUi()
      modifies this
      ensures Valid() && progressValue == 0
      ensures settings == old(settings) && thread == old(thread) && log == old(log)
    {
      if Flag(settings, UABEA_KEY) {
        uabeaButton := OpenButton(UABEA);
      } else {
        uabeaButton := DownloadButton(UABEA);
      }
      if Flag(settings, ASSET_STUDIO_KEY) {
        assetStudioButton := OpenButton(AssetStudio);
      } else {
        assetStudioButton := DownloadButton(AssetStudio);
      }
      progressValue := 0;
    }

    /** `start_download`: the bar is reset and a new thread is made for the archive. */
    method StartDownload(url: string, filename: Path, folderName: string) returns (t: DownloadThread)
      modifies this
      ensures fresh(t) && t.url == url && t.filename == filename && t.folderName == folderName
      ensures thread == t && progressValue == 0
      ensures settings == old(settings) && uabeaButton == old(uabeaButton) && assetStudioButton == old(assetStudioButton)
      ensures log == old(log)
    {
      progressValue := 0;
      t := new DownloadThread(url, filename, folderName);
      thread := t;
    }

    /** `on_download_complete`: the box, the flag and button of the named tool, then the settings file. */
    method OnDownloadComplete(folderName: string, filename: Path)
      requires Valid()
      modifies this
      ensures Valid()
      ensures settings == CompletedSettings(old(settings), folderName)
      ensures log == old(log) + [Notice("Download Complete", filename + " has been downloaded and unzipped."),
                                 SaveSettings(settings)]
      ensures progressValue == old(progressValue) && thread == old(thread)
    {
      log := log + [Notice("Download Complete", filename + " has been downloaded and unzipped.")];
      if folderName == "UABEA" {
        uabeaButton := OpenButton(UABEA);
        settings := settings[UABEA_KEY := true];
      } else if folderName == "AssetStudio" {
        assetStudioButton := OpenButton(AssetStudio);
        settings := settings[ASSET_STUDIO_KEY := true];
      }
      SaveSettingsFile();
    }

    /** The `finished` handler `start_download` connects: completion for the thread's own folder and archive. */
    method DownloadFinished(t: DownloadThread)
      requires Valid()
      modifies this
      ensures Valid()
      ensures settings == CompletedSettings(old(settings), t.folderName)
      ensures log == old(log) + [Notice("Download Complete", t.filename + " has been downloaded and unzipped."),
                                 SaveSettings(settings)]
      ensures progressValue == old(progressValue) && thread == old(thread)
    {
      OnDownloadComplete(t.folderName, t.filename);
    }

    /**
     * A click on a tool's button: a Download button starts the download it
     * names; an Open button runs the program, which is not modelled, and
     * starts nothing.
     */
    method Click(tool: Tool) returns (t: DownloadThread?)
      requires Valid()
      modifies this
      ensures Valid()
      ensures var b := ButtonFor(tool, old(settings));
              match b.onClick
              case Download(url, filename, folderName) =>
                t != null && fresh(t) && thread == t && progressValue == 0 &&
                t.url == url && t.filename == filename && t.folderName == folderName
              case Launch(_) => t == null && thread == old(thread) && progressValue == old(progressValue)
      ensures settings == old(settings) && log == old(log)
    {
      var b := if tool == UABEA then uabeaButton else assetStudioButton;
      match b.onClick
      case Download(url, filename, folderName) =>
        t := StartDownload(url, filename, folderName);
      case Launch(_) =>
        t := null;
    }
  }
}
