/**
  The item list of a shopping list and the two operations on it: deriving
  the items from the stored text (every line after the first, which is a
  date or label), and marking an item bought, which drops every item with
  exactly the clicked text. Also the inline keyboard the bot renders for
  the remaining items.
 */
module Items {
  import opened TextOps

  datatype Option<T> = None | Some(value: T)

  /** An item is the literal text of one line; it is also the button's
      callback data, so two equal lines cannot be told apart. */
  type Item = string

  /** One inline button: the text shown and the callback data it sends. */
  datatype Button = Button(text: string, callbackData: string)

  // -------------------------------------------------------------- derive

  /** The purchase list derived from the stored text: `None` when the text
      has no lines at all, otherwise every line but the first. */
  function DeriveItems(text: string): (r: Option<seq<Item>>)
    ensures r == None <==> text == []
    ensures r.Some? ==> |r.value| + 1 == |SplitLines(text)|
    ensures r.Some? ==> forall n :: 0 <= n < |r.value| ==> NoLineBreak(r.value[n])
  {
    var lines := SplitLines(text);
    if lines == [] then None else Some(lines[1..])
  }

  /** A list written as a header line and item lines gives back exactly
      those items, in order, duplicates included. */
  lemma DeriveComposed(header: string, items: seq<Item>)
    requires NoLineBreak(header)
    requires forall n :: 0 <= n < |items| ==> NoLineBreak(items[n])
    requires (if items == [] then header else items[|items| - 1]) != []
    ensures DeriveItems(JoinLines([header] + items)) == Some(items)
  {
    var lines := [header] + items;
    forall n | 0 <= n < |lines|
      ensures NoLineBreak(lines[n])
    {
      if n > 0 {
        assert lines[n] == items[n - 1];
      }
    }
    assert lines[|lines| - 1] != [] by {
      if items != [] {
        assert lines[|lines| - 1] == items[|items| - 1];
      }
    }
    SplitJoin(lines);
    assert lines[1..] == items;
  }

  /** A one-line list (only the header) gives an empty purchase list. */
  lemma DeriveHeaderOnly(text: string)
    requires text != [] && NoLineBreak(text)
    ensures DeriveItems(text) == Some([])
  {
    SingleLine(text);
  }

  /** The items of a dated list are its lines after the date, duplicates
      kept. */
  lemma DeriveExample()
    ensures DeriveItems("2024-01-01\nmilk\nbread\nmilk") == Some(["milk", "bread", "milk"])
  {
    var items := ["milk", "bread", "milk"];
    assert JoinLines(["milk"]) == "milk";
    assert JoinLines(["bread", "milk"]) == "bread\nmilk" by {
      assert ["bread", "milk"][1..] == ["milk"];
    }
    assert JoinLines(items) == "milk\nbread\nmilk" by {
      assert items[1..] == ["bread", "milk"];
    }
    assert JoinLines(["2024-01-01"] + items) == "2024-01-01\nmilk\nbread\nmilk" by {
      assert (["2024-01-01"] + items)[1..] == items;
    }
    DeriveComposed("2024-01-01", items);
  }

  /** Whichever boundary ends the header line (`"\n"`, `"\r\n"`, a lone
      `"\r"` or any other), the items are the lines of what follows it. */
  lemma DeriveAfterHeader(header: string, b: string, rest: string)
    requires NoLineBreak(header) && IsBoundary(b, rest)
    ensures DeriveItems(header + b + rest) == Some(SplitLines(rest))
  {
    SplitCons(header, b, rest);
  }

  // -------------------------------------------------------------- remove

  /** `[i for i in items if i != clicked]`. */
  function Remove(items: seq<Item>, clicked: Item): (r: seq<Item>)
    ensures |r| <= |items|
    ensures forall y :: y in r <==> y in items && y != clicked
  {
    if items == [] then []
    else (if items[0] == clicked then [] else [items[0]]) + Remove(items[1..], clicked)
  }

  /** `a` is `b` with some elements left out, the rest in their order. */
  predicate IsSubsequence(a: seq<Item>, b: seq<Item>)
    decreases |b|
  {
    a == [] || (b != [] && ((a[0] == b[0] && IsSubsequence(a[1..], b[1..])) || IsSubsequence(a, b[1..])))
  }

  /** Removal keeps every other item, in order: the result is a
      subsequence of the input. */
  lemma {:induction false} RemoveIsSubsequence(items: seq<Item>, clicked: Item)
    ensures IsSubsequence(Remove(items, clicked), items)
  {
    if items != [] {
      RemoveIsSubsequence(items[1..], clicked);
      var r := Remove(items, clicked);
      if items[0] != clicked {
        assert r[0] == items[0] && r[1..] == Remove(items[1..], clicked);
      } else {
        assert r == Remove(items[1..], clicked);
      }
    }
  }

  lemma {:induction false} SubsequenceReflexive(a: seq<Item>)
    ensures IsSubsequence(a, a)
  {
    if a != [] {
      SubsequenceReflexive(a[1..]);
    }
  }

  lemma {:induction false} SubsequenceTransitive(a: seq<Item>, b: seq<Item>, c: seq<Item>)
    requires IsSubsequence(a, b) && IsSubsequence(b, c)
    ensures IsSubsequence(a, c)
    decreases |c|
  {
    if a != [] {
      if IsSubsequence(b, c[1..]) {
        SubsequenceTransitive(a, b, c[1..]);
      } else if a[0] == b[0] && IsSubsequence(a[1..], b[1..]) {
        SubsequenceTransitive(a[1..], b[1..], c[1..]);
      } else {
        SubsequenceTransitive(a, b[1..], c[1..]);
      }
    }
  }

  /** Removal drops exactly the copies of `clicked` and leaves the count of
      every other item as it was. */
  lemma {:induction false} RemoveMultiset(items: seq<Item>, clicked: Item)
    ensures multiset(Remove(items, clicked)) == multiset(items)[clicked := 0]
  {
    if items != [] {
      RemoveMultiset(items[1..], clicked);
      var head := if items[0] == clicked then [] else [items[0]];
      assert Remove(items, clicked) == head + Remove(items[1..], clicked);
      assert items == [items[0]] + items[1..];
      assert multiset(items) == multiset{items[0]} + multiset(items[1..]);
    }
  }

  /** The number of items left is the number before minus the copies of
      the clicked item. */
  lemma RemoveLength(items: seq<Item>, clicked: Item)
    ensures |Remove(items, clicked)| == |items| - multiset(items)[clicked]
  {
    RemoveMultiset(items, clicked);
    assert |multiset(items)[clicked := 0]| + multiset(items)[clicked] == |multiset(items)|;
  }

  /** Removal works on each part of a list separately, so it keeps order. */
  lemma {:induction false} RemoveAppend(a: seq<Item>, b: seq<Item>, clicked: Item)
    ensures Remove(a + b, clicked) == Remove(a, clicked) + Remove(b, clicked)
  {
    if a != [] {
      RemoveAppend(a[1..], b, clicked);
      assert (a + b)[1..] == a[1..] + b;
    } else {
      assert a + b == b;
    }
  }

  /** A click on text that is not in the list changes nothing. */
  lemma {:induction false} RemoveAbsent(items: seq<Item>, clicked: Item)
    requires clicked !in items
    ensures Remove(items, clicked) == items
  {
    if items != [] {
      RemoveAbsent(items[1..], clicked);
      assert items == [items[0]] + items[1..];
    }
  }

  /** Clicking the same item twice is the same as clicking it once. */
  lemma RemoveIdempotent(items: seq<Item>, clicked: Item)
    ensures Remove(Remove(items, clicked), clicked) == Remove(items, clicked)
  {
    RemoveAbsent(Remove(items, clicked), clicked);
  }

  /** The order in which two items are bought does not matter. */
  lemma {:induction false} RemoveCommutes(items: seq<Item>, x: Item, y: Item)
    ensures Remove(Remove(items, x), y) == Remove(Remove(items, y), x)
  {
    if items != [] {
      RemoveCommutes(items[1..], x, y);
      var h := if items[0] == x then [] else [items[0]];
      RemoveAppend(h, Remove(items[1..], x), y);
      var h' := if items[0] == y then [] else [items[0]];
      RemoveAppend(h', Remove(items[1..], y), x);
    }
  }

  /** Buying "milk" from milk, bread, milk leaves only bread. */
  lemma RemoveExample()
    ensures Remove(["milk", "bread", "milk"], "milk") == ["bread"]
  {
    var items := ["milk", "bread", "milk"];
    assert items[1..] == ["bread", "milk"];
    assert items[1..][1..] == ["milk"];
    assert Remove(["milk"], "milk") == [];
  }

  // ------------------------------------------------------------ keyboard

  /** One button per item, in order, each showing the item's text and
      sending it back as callback data. */
  function Keyboard(items: seq<Item>): (kb: seq<Button>)
    ensures |kb| == |items|
    ensures forall n :: 0 <= n < |items| ==> kb[n].text == items[n] && kb[n].callbackData == items[n]
  {
    if items == [] then [] else [Button(items[0], items[0])] + Keyboard(items[1..])
  }
}
