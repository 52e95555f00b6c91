/** Splitting a C string at a separator. The code never cuts where a field would be empty,
    so it does not always fill the slots it counted. */
module StrExplode {
  import opened Basics

  /** All fields of str[from..], empty ones included. */
  function Fields(str: string, sep: char, from: nat): (r: seq<string>)
    requires from <= |str|
    ensures r != []
    decreases |str| - from
  {
    var p := IndexOf(str, sep, from);
    if p == |str| then [str[from..]] else [str[from..p]] + Fields(str, sep, p + 1)
  }

  function Join(items: seq<string>, sep: char): string {
    if items == [] then []
    else if |items| == 1 then items[0]
    else items[0] + [sep] + Join(items[1..], sep)
  }

  /** What the second scan stores: it never cuts at the first character of an item. */
  function Items(str: string, sep: char, from: nat): seq<string>
    requires from <= |str|
    decreases |str| - from
  {
    if from == |str| then []
    else
      var p := IndexOf(str, sep, from + 1);
      if p == |str| then [str[from..]] else [str[from..p]] + Items(str, sep, p + 1)
  }

  function CountSeparators(str: string, sep: char, from: nat): nat
    requires from <= |str|
    decreases |str| - from
  {
    if from == |str| then 0
    else (if str[from] == sep then 1 else 0) + CountSeparators(str, sep, from + 1)
  }

  ghost predicate NoneEmpty(items: seq<string>) {
    forall i :: 0 <= i < |items| ==> items[i] != []
  }

  lemma NoneEmptyBehind(first: string, rest: seq<string>)
    ensures NoneEmpty([first] + rest) <==> first != [] && NoneEmpty(rest)
  {
    var all := [first] + rest;
    assert all[0] == first && forall i :: 0 <= i < |rest| ==> rest[i] == all[i + 1];
  }

  lemma {:induction false} CountToCut(str: string, sep: char, from: nat)
    requires from <= |str|
    ensures var p := IndexOf(str, sep, from);
      CountSeparators(str, sep, from) == if p == |str| then 0 else 1 + CountSeparators(str, sep, p + 1)
    decreases |str| - from
  {
    if from < |str| && str[from] != sep { CountToCut(str, sep, from + 1); }
  }

  /** The slots counted are the fields. */
  lemma {:induction false} SlotsAreFields(str: string, sep: char, from: nat)
    requires from <= |str|
    ensures CountSeparators(str, sep, from) + 1 == |Fields(str, sep, from)|
    decreases |str| - from
  {
    CountToCut(str, sep, from);
    var p := IndexOf(str, sep, from);
    if p < |str| { SlotsAreFields(str, sep, p + 1); }
  }

  /** The stored items never outnumber the slots, fill them exactly when no field is empty,
      and then they are the fields. */
  lemma {:induction false} ItemsFillExactlyWhen(str: string, sep: char, from: nat)
    requires from <= |str|
    ensures |Items(str, sep, from)| <= |Fields(str, sep, from)|
    ensures |Items(str, sep, from)| == |Fields(str, sep, from)| <==> NoneEmpty(Fields(str, sep, from))
    ensures NoneEmpty(Fields(str, sep, from)) ==> Items(str, sep, from) == Fields(str, sep, from)
    decreases |str| - from, 1
  {
    hide Items, Fields, NoneEmpty;
    if from == |str| || str[from] == sep {
      LeadingSeparator(str, sep, from);
    } else {
      FirstFieldIsItem(str, sep, from);
      var p := IndexOf(str, sep, from);
      if p < |str| {
        ItemsFillExactlyWhen(str, sep, p + 1);
        NoneEmptyBehind(str[from..p], Fields(str, sep, p + 1));
      }
    }
  }

  /** A field that is not empty is stored as it is. */
  lemma FirstFieldIsItem(str: string, sep: char, from: nat)
    requires from < |str| && str[from] != sep
    ensures var p := IndexOf(str, sep, from);
      && from < p
      && (p == |str| ==> Items(str, sep, from) == Fields(str, sep, from) == [str[from..]] && NoneEmpty([str[from..]]))
      && (p < |str| ==> Fields(str, sep, from) == [str[from..p]] + Fields(str, sep, p + 1))
      && (p < |str| ==> Items(str, sep, from) == [str[from..p]] + Items(str, sep, p + 1))
  {
  }

  /** The first cut falls behind the empty field and its neighbour alike. */
  lemma {:induction false} LeadingSeparator(str: string, sep: char, from: nat)
    requires from <= |str| && (from == |str| || str[from] == sep)
    ensures |Items(str, sep, from)| < |Fields(str, sep, from)| && !NoneEmpty(Fields(str, sep, from))
    decreases |str| - from, 0
  {
    assert Fields(str, sep, from)[0] == [];
    if from < |str| {
      assert |Fields(str, sep, from)| == 1 + |Fields(str, sep, from + 1)|;
      var q := IndexOf(str, sep, from + 1);
      if q < |str| { ItemsFillExactlyWhen(str, sep, q + 1); }
    }
  }

  /** A character behind and before every separator, and at least one in all. */
  ghost predicate SeparatorsApart(str: string, sep: char, from: nat) {
    from < |str| && str[from] != sep
    && forall i :: from <= i < |str| && str[i] == sep ==> i + 1 < |str| && str[i + 1] != sep
  }

  lemma {:induction false} NoneEmptyExactlyWhen(str: string, sep: char, from: nat)
    requires from <= |str|
    ensures NoneEmpty(Fields(str, sep, from)) <==> SeparatorsApart(str, sep, from)
    decreases |str| - from
  {
    var p := IndexOf(str, sep, from);
    if p == from {
      assert Fields(str, sep, from)[0] == [];
    } else if p < |str| {
      NoneEmptyExactlyWhen(str, sep, p + 1);
      NoneEmptyBehind(str[from..p], Fields(str, sep, p + 1));
    }
  }

  lemma CutApart(str: string, from: nat, p: nat)
    requires from <= p < |str|
    ensures str[from..] == str[from..p] + [str[p]] + str[p + 1..]
  {
  }

  lemma JoinBehind(first: string, rest: seq<string>, sep: char)
    requires rest != []
    ensures Join([first] + rest, sep) == first + [sep] + Join(rest, sep)
  {
    assert ([first] + rest)[1..] == rest;
  }

  /** Joining the fields with the separator gives the string back. */
  lemma {:induction false} JoinOfFields(str: string, sep: char, from: nat)
    requires from <= |str|
    ensures Join(Fields(str, sep, from), sep) == str[from..]
    decreases |str| - from
  {
    var p := IndexOf(str, sep, from);
    if p < |str| {
      var rest := Fields(str, sep, p + 1);
      JoinOfFields(str, sep, p + 1);
      JoinBehind(str[from..p], rest, sep);
      CutApart(str, from, p);
    }
  }

  /** A separator can only be the first character of an item. */
  ghost predicate CutInside(item: string, sep: char) {
    item != [] && forall j :: 0 < j < |item| ==> item[j] != sep
  }

  /** Only the string's last separator can get lost, when nothing comes behind it. */
  ghost predicate EndsInCut(str: string, sep: char, from: nat)
    requires from <= |str|
    decreases |str| - from
  {
    from < |str| &&
      var p := IndexOf(str, sep, from + 1);
      p < |str| && (p + 1 == |str| || EndsInCut(str, sep, p + 1))
  }

  lemma {:induction false} ItemsAreCutInside(str: string, sep: char, from: nat, i: nat)
    requires from <= |str| && i < |Items(str, sep, from)|
    ensures CutInside(Items(str, sep, from)[i], sep)
    decreases |str| - from
  {
    var p := IndexOf(str, sep, from + 1);
    if i > 0 { ItemsAreCutInside(str, sep, p + 1, i - 1); }
  }

  /** Joining the items stored gives the string back, up to a separator at its end. */
  ghost predicate Rejoined(str: string, sep: char, from: nat)
    requires from <= |str|
  {
    && str[from..] == Join(Items(str, sep, from), sep) + (if EndsInCut(str, sep, from) then [sep] else [])
    && (EndsInCut(str, sep, from) ==> str[|str| - 1] == sep)
  }

  lemma RejoinedWhole(str: string, sep: char, from: nat)
    requires from <= |str| && (from < |str| ==> IndexOf(str, sep, from + 1) == |str|)
    ensures Rejoined(str, sep, from)
  {
    var rest := str[from..];
    assert from < |str| ==> Items(str, sep, from) == [rest] && Join([rest], sep) == rest;
    assert rest + [] == rest;
  }

  lemma RejoinedToEnd(str: string, sep: char, from: nat)
    requires from < |str| && IndexOf(str, sep, from + 1) == |str| - 1
    ensures Rejoined(str, sep, from)
  {
    var p := |str| - 1;
    var item := str[from..p];
    assert Items(str, sep, |str|) == [] && [item] + [] == [item];
    assert Join([item], sep) == item;
    assert str[from..] == item + [str[p]];
    hide Join, IndexOf;
  }

  lemma RejoinedBehind(str: string, sep: char, from: nat, p: nat)
    requires from < p < |str| - 1 && p == IndexOf(str, sep, from + 1) && Rejoined(str, sep, p + 1)
    ensures Rejoined(str, sep, from)
  {
    hide Join, IndexOf;
    var item, rest := str[from..p], Items(str, sep, p + 1);
    var end := if EndsInCut(str, sep, p + 1) then [sep] else [];
    JoinBehind(item, rest, sep);
    CutApart(str, from, p);
    Assoc(item + [sep], Join(rest, sep), end);
  }

  /** Whether or not some field is empty, no character of the string is lost but a separator
      at its very end. */
  lemma {:induction false} JoinOfItems(str: string, sep: char, from: nat)
    requires from <= |str|
    ensures Rejoined(str, sep, from)
    decreases |str| - from
  {
    hide Rejoined;
    if from == |str| || IndexOf(str, sep, from + 1) == |str| {
      RejoinedWhole(str, sep, from);
    } else if IndexOf(str, sep, from + 1) == |str| - 1 {
      RejoinedToEnd(str, sep, from);
    } else {
      var p := IndexOf(str, sep, from + 1);
      JoinOfItems(str, sep, p + 1);
      RejoinedBehind(str, sep, from, p);
    }
  }

  /** What a scan that stands at pos, in the item that begins at start, still stores. */
  ghost function Scan(str: string, sep: char, start: nat, pos: nat): seq<string>
    requires start <= pos <= |str|
    decreases |str| - pos
  {
    if pos == |str| then if start == pos then [] else [str[start..pos]]
    else if pos != start && str[pos] == sep then [str[start..pos]] + Scan(str, sep, pos + 1, pos + 1)
    else Scan(str, sep, start, pos + 1)
  }

  lemma {:induction false} ScanIsItems(str: string, sep: char, start: nat, pos: nat)
    requires start <= pos <= |str|
    requires start < pos ==> IndexOf(str, sep, start + 1) == IndexOf(str, sep, pos)
    ensures Scan(str, sep, start, pos) == Items(str, sep, start)
    decreases |str| - pos
  {
    if pos < |str| {
      if pos != start && str[pos] == sep {
        ScanIsItems(str, sep, pos + 1, pos + 1);
      } else {
        ScanIsItems(str, sep, start, pos + 1);
      }
    } else {
      assert str[start..] == str[start..pos];
    }
  }

  /** The first slots hold the items, the others were never written. */
  ghost predicate Holds(slots: seq<Option<string>>, items: seq<string>) {
    |items| <= |slots|
    && (forall i :: 0 <= i < |items| ==> slots[i] == Some(items[i]))
    && (forall i :: |items| <= i < |slots| ==> slots[i] == None)
  }

  predicate Filled(slots: seq<Option<string>>) {
    forall i :: 0 <= i < |slots| ==> slots[i].Some?
  }

  function Values(slots: seq<Option<string>>): (r: seq<string>)
    requires Filled(slots)
    ensures |r| == |slots| && forall i :: 0 <= i < |r| ==> r[i] == slots[i].value
  {
    seq(|slots|, i requires 0 <= i < |slots| => slots[i].value)
  }

  /** When separators stand apart all slots are filled, with the fields, and joining them
      gives the string back; otherwise some slot is left unwritten. */
  lemma FilledExactlyWhenNoneEmpty(str: string, sep: char, slots: seq<Option<string>>)
    requires |slots| == |Fields(str, sep, 0)| && Holds(slots, Items(str, sep, 0))
    ensures Filled(slots) <==> SeparatorsApart(str, sep, 0)
    ensures Filled(slots) ==> Values(slots) == Fields(str, sep, 0) && Join(Values(slots), sep) == str
  {
    ItemsFillExactlyWhen(str, sep, 0);
    NoneEmptyExactlyWhen(str, sep, 0);
    var items := Items(str, sep, 0);
    if |items| < |slots| {
      assert slots[|items|].None?;
    } else {
      assert forall i :: 0 <= i < |slots| ==> slots[i] == Some(items[i]);
      JoinOfFields(str, sep, 0);
      assert Values(slots) == Fields(str, sep, 0);
      assert str[0..] == str;
    }
  }

  class CStrExplode {
    const itemCnt: nat
    // A slot the constructor never wrote holds no string.
    const itemList: array<Option<string>>

    /** Every write is to a slot below itemCnt; the first slots get the items and the
        others stay unwritten. */
    constructor (str: string, separator: char)
      ensures itemCnt == itemList.Length == |Fields(str, separator, 0)|
      ensures fresh(itemList) && Holds(itemList[..], Items(str, separator, 0))
    {
      var cnt := CountSlots(str, separator);
      itemCnt := cnt;
      var list := new Option<string>[cnt](_ => None);
      itemList := list;
      new;
      SlotsAreFields(str, separator, 0);
      ItemsFillExactlyWhen(str, separator, 0);
      Fill(list, str, separator);
    }
  }

  method CountSlots(str: string, separator: char) returns (cnt: nat)
    ensures cnt == CountSeparators(str, separator, 0) + 1
  {
    cnt := 1;
    var pos := 0;
    while pos < |str|
      invariant 0 <= pos <= |str|
      invariant cnt + CountSeparators(str, separator, pos) == CountSeparators(str, separator, 0) + 1
    {
      if str[pos] == separator {
        cnt := cnt + 1;
      }
      pos := pos + 1;
    }
  }

  /** The scanning loop: cuts off an item at each separator that is not at the start of
      the current item. */
  method Fill(list: array<Option<string>>, str: string, separator: char)
    requires |Items(str, separator, 0)| <= list.Length && Holds(list[..], [])
    modifies list
    ensures Holds(list[..], Items(str, separator, 0))
  {
    ghost var done: seq<string> := [];
    var idx, start, pos := 0, 0, 0;
    ScanIsItems(str, separator, 0, 0);
    while pos < |str|
      invariant 0 <= start <= pos <= |str| && idx == |done|
      invariant done + Scan(str, separator, start, pos) == Items(str, separator, 0)
      invariant Holds(list[..], done)
      decreases |str| - pos
    {
      if pos != start && str[pos] == separator {
        Regroup(done, str[start..pos], Scan(str, separator, pos + 1, pos + 1));
        StoreItem(list, idx, str[start..pos], done);
        done := done + [str[start..pos]];
        idx := idx + 1;
        start := pos + 1;
      }
      pos := pos + 1;
    }
    if pos - start != 0 {
      StoreItem(list, idx, str[start..pos], done);
    }
  }

  method StoreItem(list: array<Option<string>>, idx: nat, item: string, ghost done: seq<string>)
    requires Holds(list[..], done) && idx == |done| < list.Length
    modifies list
    ensures Holds(list[..], done + [item])
  {
    list[idx] := Some(item);
  }

  lemma Regroup(done: seq<string>, item: string, rest: seq<string>)
    ensures done + ([item] + rest) == (done + [item]) + rest
  {
  }
}
