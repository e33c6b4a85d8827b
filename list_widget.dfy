/**
 * The files list widget (a Qt `QListWidget`) as the copier sees it: a
 * sequence of item objects, each showing a text fixed when it was added.
 * Items are objects, so `row(item)` finds an item by identity, not by text.
 */
module ListWidget {
  import opened Seqs

  /** A `QListWidgetItem`: its identity and the text it shows. */
  class ListItem {
    const text: string

    constructor (text: string)
      ensures this.text == text
    {
      this.text := text;
    }
  }

  /** The texts the widget shows, row by row. */
  function Texts(items: seq<ListItem>): (r: seq<string>)
    ensures |r| == |items|
    ensures forall i :: 0 <= i < |items| ==> r[i] == items[i].text
  {
    seq(|items|, i requires 0 <= i < |items| => items[i].text)
  }

  /** `addItem`: a new item shows its text in a new last row, and no item is then shown twice. */
  lemma AddItem(items: seq<ListItem>, item: ListItem)
    requires Distinct(items) && item !in items
    ensures Texts(items + [item]) == Texts(items) + [item.text]
    ensures Distinct(items + [item])
  {
  }

  /** `QListWidget.row(item)`: the row that shows `x`, the first one if it were shown twice. */
  function IndexOf(items: seq<ListItem>, x: ListItem): (k: nat)
    requires x in items
    ensures k < |items| && items[k] == x
    ensures x !in items[..k]
  {
    if items[0] == x then 0
    else
      var k := IndexOf(items[1..], x);
      assert items[..k + 1] == [items[0]] + items[1..][..k];
      k + 1
  }

  /** A selection the widget can report: distinct items, each of them shown. */
  predicate IsSelectionOf(items: seq<ListItem>, selected: seq<ListItem>) {
    Distinct(selected) && forall j :: 0 <= j < |selected| ==> selected[j] in items
  }

  /** The items of a selection. */
  function ItemSet(selected: seq<ListItem>): set<ListItem> {
    set x | x in selected
  }

  /** How many rows show an item outside `gone`. */
  function KeptCount(items: seq<ListItem>, gone: set<ListItem>): nat
    decreases |items|
  {
    if items == [] then 0
    else (if items[0] in gone then 0 else 1) + KeptCount(items[1..], gone)
  }

  /**
   * The entries of `xs`, a sequence kept row-parallel with the widget, that
   * sit in rows whose item is not in `gone`, in their order.
   */
  function KeepRows<T>(items: seq<ListItem>, xs: seq<T>, gone: set<ListItem>): (r: seq<T>)
    requires |items| == |xs|
    ensures |r| == KeptCount(items, gone)
    decreases |items|
  {
    if items == [] then []
    else (if items[0] in gone then [] else [xs[0]]) + KeepRows(items[1..], xs[1..], gone)
  }

  /** The widget's items once the items in `gone` are taken out. */
  function Without(items: seq<ListItem>, gone: set<ListItem>): seq<ListItem> {
    KeepRows(items, items, gone)
  }

  lemma {:induction false} KeepRowsDisjoint<T>(items: seq<ListItem>, xs: seq<T>, gone: set<ListItem>)
    requires |items| == |xs|
    requires forall i :: 0 <= i < |items| ==> items[i] !in gone
    ensures KeepRows(items, xs, gone) == xs
    decreases |items|
  {
    if items != [] {
      KeepRowsDisjoint(items[1..], xs[1..], gone);
    }
  }

  /**
   * Deleting row `k` of a row-parallel sequence is keeping every row except
   * the one that shows `items[k]`, when no item is shown twice.
   */
  lemma {:induction false} KeepRowsRemoveAt<T>(items: seq<ListItem>, xs: seq<T>, k: nat)
    requires |items| == |xs| && k < |items| && Distinct(items)
    ensures RemoveAt(xs, k) == KeepRows(items, xs, {items[k]})
    decreases k
  {
    if k == 0 {
      KeepRowsDisjoint(items[1..], xs[1..], {items[0]});
    } else {
      assert items[1..][k - 1] == items[k];
      KeepRowsRemoveAt(items[1..], xs[1..], k - 1);
      assert RemoveAt(xs, k) == [xs[0]] + RemoveAt(xs[1..], k - 1);
    }
  }

  /** Taking out `a` and then `b` is taking out both at once, for the widget and for every row-parallel sequence. */
  lemma {:induction false} KeepRowsCompose<T>(items: seq<ListItem>, xs: seq<T>, a: set<ListItem>, b: set<ListItem>)
    requires |items| == |xs|
    ensures KeepRows(Without(items, a), KeepRows(items, xs, a), b) == KeepRows(items, xs, a + b)
    decreases |items|
  {
    if items != [] {
      KeepRowsCompose(items[1..], xs[1..], a, b);
      var w, k := Without(items[1..], a), KeepRows(items[1..], xs[1..], a);
      if items[0] !in a {
        assert Without(items, a) == [items[0]] + w;
        assert KeepRows(items, xs, a) == [xs[0]] + k;
        assert ([items[0]] + w)[1..] == w && ([xs[0]] + k)[1..] == k;
      } else {
        assert Without(items, a) == w;
        assert KeepRows(items, xs, a) == k;
      }
    }
  }

  /** Rows that are kept keep their relative order. */
  lemma {:induction false} KeepRowsSub<T>(items: seq<ListItem>, xs: seq<T>, gone: set<ListItem>)
    requires |items| == |xs|
    ensures Sub(KeepRows(items, xs, gone), xs)
    decreases |items|
  {
    if items != [] {
      KeepRowsSub(items[1..], xs[1..], gone);
      var rest := KeepRows(items[1..], xs[1..], gone);
      if items[0] !in gone {
        assert KeepRows(items, xs, gone) == [xs[0]] + rest;
        assert KeepRows(items, xs, gone)[1..] == rest;
      } else {
        assert KeepRows(items, xs, gone) == rest;
        assert xs != [] && Sub(rest, xs[1..]);
      }
    }
  }

  /** An item is still shown after taking out `gone` exactly when it was shown and is not in `gone`. */
  lemma {:induction false} WithoutMember(items: seq<ListItem>, gone: set<ListItem>, x: ListItem)
    ensures x in Without(items, gone) <==> x in items && x !in gone
    decreases |items|
  {
    if items != [] {
      WithoutMember(items[1..], gone, x);
      assert Without(items, gone) == (if items[0] in gone then [] else [items[0]]) + Without(items[1..], gone);
      assert items == [items[0]] + items[1..];
    }
  }
}
