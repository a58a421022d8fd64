/**
 * The client side of the protocol: the parsers behind `Player._received_hand`
 * and `Player._received_player_status`, and the player fields they fill.
 */
module Client {
  import opened Wrappers
  import opened Strings
  import Server

  /** `int(x)` for every field, or None when any of them is not an int. */
  function ParseInts(fields: seq<string>): (r: Option<seq<int>>)
    ensures r.Some? <==> forall i :: 0 <= i < |fields| ==> ParseInt(fields[i]).Some?
    ensures r.Some? ==> |r.value| == |fields|
    ensures r.Some? ==> forall i :: 0 <= i < |fields| ==> ParseInt(fields[i]) == Some(r.value[i])
    decreases |fields|
  {
    if fields == [] then Some([])
    else
      assert forall i :: 1 <= i < |fields| ==> fields[i] == fields[1..][i - 1];
      match ParseInt(fields[0])
      case None => None
      case Some(v) =>
        match ParseInts(fields[1..])
        case None => None
        case Some(rest) => Some([v] + rest)
  }

  predicate Sorted(xs: seq<int>) {
    forall i, j :: 0 <= i < j < |xs| ==> xs[i] <= xs[j]
  }

  /** A value no larger than the head of a sorted sequence can go in front of it. */
  lemma SortedPrepend(y: int, r: seq<int>)
    requires Sorted(r) && (r == [] || y <= r[0])
    ensures Sorted([y] + r)
  {
    var s := [y] + r;
    forall i, j | 0 <= i < j < |s| ensures s[i] <= s[j] {
      if i == 0 && j > 1 {
        assert s[j] == r[j - 1] && r[0] <= r[j - 1];
      }
    }
  }

  /** Put `x` into a sequence, before the first larger value. */
  function Insert(x: int, xs: seq<int>): seq<int>
    decreases |xs|
  {
    if xs == [] || x <= xs[0] then [x] + xs else [xs[0]] + Insert(x, xs[1..])
  }

  /** Inserting into a sorted sequence keeps it sorted and adds exactly `x`. */
  lemma {:induction false} InsertSorted(x: int, xs: seq<int>)
    requires Sorted(xs)
    ensures var r := Insert(x, xs);
      Sorted(r) && multiset(r) == multiset(xs) + multiset{x} &&
      (r[0] == x || (xs != [] && r[0] == xs[0]))
    decreases |xs|
  {
    if xs == [] || x <= xs[0] {
      SortedPrepend(x, xs);
    } else {
      var rest := Insert(x, xs[1..]);
      InsertSorted(x, xs[1..]);
      assert xs == [xs[0]] + xs[1..];
      assert |xs| > 1 ==> xs[0] <= xs[1];
      SortedPrepend(xs[0], rest);
    }
  }

  /** Python's `sorted` on ints, as an insertion sort. */
  function SortInts(xs: seq<int>): seq<int>
    decreases |xs|
  {
    if xs == [] then [] else Insert(xs[0], SortInts(xs[1..]))
  }

  /** The sort is ascending and holds the same values as before. */
  lemma {:induction false} SortIntsSorted(xs: seq<int>)
    ensures Sorted(SortInts(xs)) && multiset(SortInts(xs)) == multiset(xs)
    decreases |xs|
  {
    if xs != [] {
      SortIntsSorted(xs[1..]);
      InsertSorted(xs[0], SortInts(xs[1..]));
      assert xs == [xs[0]] + xs[1..];
    }
  }

  /** The head of a sorted sequence is its least value. */
  lemma SortedHeadLeast(a: seq<int>, x: int)
    requires Sorted(a) && x in multiset(a)
    ensures a[0] <= x
  {
    assert x in a;
    var i :| 0 <= i < |a| && a[i] == x;
  }

  /** There is only one ascending arrangement of a multiset of values. */
  lemma {:induction false} SortedUnique(a: seq<int>, b: seq<int>)
    requires Sorted(a) && Sorted(b) && multiset(a) == multiset(b)
    ensures a == b
    decreases |a|
  {
    assert |a| == |multiset(a)| == |multiset(b)| == |b|;
    if a != [] {
      assert a[0] in multiset(b) by { assert a[0] in a; }
      assert b[0] in multiset(a) by { assert b[0] in b; }
      SortedHeadLeast(a, b[0]);
      SortedHeadLeast(b, a[0]);
      assert a[0] == b[0];
      var ta, tb := a[1..], b[1..];
      assert a == [a[0]] + ta && b == [b[0]] + tb;
      assert multiset(a) == multiset([a[0]]) + multiset(ta);
      assert multiset(b) == multiset([b[0]]) + multiset(tb);
      assert multiset(ta) == multiset(a) - multiset([a[0]]);
      assert multiset(tb) == multiset(b) - multiset([b[0]]);
      assert Sorted(ta) by {
        forall i, j | 0 <= i < j < |ta| ensures ta[i] <= ta[j] { assert ta[i] == a[i + 1] && ta[j] == a[j + 1]; }
      }
      assert Sorted(tb) by {
        forall i, j | 0 <= i < j < |tb| ensures tb[i] <= tb[j] { assert tb[i] == b[i + 1] && tb[j] == b[j + 1]; }
      }
      SortedUnique(ta, tb);
    }
  }

  /**
   * The payload of a hand message: comma-separated face values, as ints in
   * ascending order. The empty payload is the empty hand; any field that is
   * not an int makes the whole payload unreadable.
   */
  function ParseHand(text: string): (r: Option<seq<int>>)
    ensures r.Some? ==> Sorted(r.value)
    ensures text == "" ==> r == Some([])
    ensures text != "" ==>
      (r.Some? <==> ParseInts(Split(text, ',')).Some?) &&
      (r.Some? ==> multiset(r.value) == multiset(ParseInts(Split(text, ',')).value))
  {
    if text == "" then Some([])
    else
      match ParseInts(Split(text, ','))
      case Some(values) =>
        SortIntsSorted(values);
        Some(SortInts(values))
      case None => None
  }

  /** The test's hand: "6,5,6,4,1,3" reads as [1, 3, 4, 5, 6, 6]. */
  lemma ParseHandExample()
    ensures ParseHand("6,5,6,4,1,3") == Some([1, 3, 4, 5, 6, 6])
  {
    ExampleSplit();
    ExampleValues();
    ExampleSorted();
  }

  lemma ExampleSplit()
    ensures Split("6,5,6,4,1,3", ',') == ["6", "5", "6", "4", "1", "3"]
  {
    var fields := ["6", "5", "6", "4", "1", "3"];
    SplitJoin(fields, ',');
    assert Join(fields[4..], ',') == "1,3";
    assert Join(fields[2..], ',') == "6,4,1,3";
    assert Join(fields, ',') == "6,5,6,4,1,3";
  }

  /** A lone digit reads as its value. */
  lemma ParseDigit(c: char)
    requires IsDigit(c)
    ensures ParseInt([c]) == Some(c as int - '0' as int)
  {
    var s := [c];
    assert s[..0] == "" && s[|s| - 1] == c;
    assert AllDigits(s);
    assert DigitsValue(s) == c as int - '0' as int;
  }

  lemma ExampleValues()
    ensures ParseInts(["6", "5", "6", "4", "1", "3"]) == Some([6, 5, 6, 4, 1, 3])
  {
    var fields := ["6", "5", "6", "4", "1", "3"];
    var values := [6, 5, 6, 4, 1, 3];
    ParseDigit('6');
    ParseDigit('5');
    ParseDigit('4');
    ParseDigit('1');
    ParseDigit('3');
    assert ParseInts(fields).value == values;
  }

  lemma ExampleSortedTail()
    ensures SortInts([4, 1, 3]) == [1, 3, 4]
  {
    assert SortInts([3]) == [3];
    assert SortInts([1, 3]) == Insert(1, [3]) == [1, 3];
    assert Insert(4, [3]) == [3, 4];
    assert Insert(4, [1, 3]) == [1] + Insert(4, [3]);
  }

  lemma ExampleSortedMiddle()
    ensures SortInts([5, 6, 4, 1, 3]) == [1, 3, 4, 5, 6]
  {
    ExampleSortedTail();
    assert [6, 4, 1, 3][1..] == [4, 1, 3];
    assert Insert(6, [4]) == [4, 6];
    assert Insert(6, [3, 4]) == [3] + Insert(6, [4]);
    assert Insert(6, [1, 3, 4]) == [1] + Insert(6, [3, 4]);
    assert SortInts([6, 4, 1, 3]) == [1, 3, 4, 6];
    assert [5, 6, 4, 1, 3][1..] == [6, 4, 1, 3];
    assert Insert(5, [6]) == [5, 6];
    assert Insert(5, [4, 6]) == [4] + Insert(5, [6]);
    assert Insert(5, [3, 4, 6]) == [3] + Insert(5, [4, 6]);
    assert Insert(5, [1, 3, 4, 6]) == [1] + Insert(5, [3, 4, 6]);
  }

  lemma ExampleSorted()
    ensures SortInts([6, 5, 6, 4, 1, 3]) == [1, 3, 4, 5, 6, 6]
  {
    ExampleSortedMiddle();
    assert [6, 5, 6, 4, 1, 3][1..] == [5, 6, 4, 1, 3];
    assert Insert(6, [6]) == [6, 6];
    assert Insert(6, [5, 6]) == [5] + Insert(6, [6]);
    assert Insert(6, [4, 5, 6]) == [4] + Insert(6, [5, 6]);
    assert Insert(6, [3, 4, 5, 6]) == [3] + Insert(6, [4, 5, 6]);
    assert Insert(6, [1, 3, 4, 5, 6]) == [1] + Insert(6, [3, 4, 5, 6]);
  }

  /** The decimal forms of some ints. */
  function FormatInts(xs: seq<int>): (fields: seq<string>)
    ensures |fields| == |xs|
    ensures forall i :: 0 <= i < |xs| ==> fields[i] == FormatInt(xs[i])
  {
    seq(|xs|, i requires 0 <= i < |xs| => FormatInt(xs[i]))
  }

  /** Reading back any comma-joined list of ints gives the same values, sorted. */
  lemma ParseHandFormatted(xs: seq<int>)
    ensures ParseHand(Join(FormatInts(xs), ',')) == Some(SortInts(xs))
  {
    var fields := FormatInts(xs);
    if xs != [] {
      forall i | 0 <= i < |fields| ensures ',' !in fields[i] {
        FormatIntHasNo(xs[i], ',');
      }
      SplitJoin(fields, ',');
      assert forall i :: 0 <= i < |xs| ==> ParseInt(fields[i]) == Some(xs[i]);
      var values := ParseInts(fields).value;
      assert values == xs;
      assert Join(fields, ',') != "" by {
        assert |FormatInt(xs[0])| >= 1;
        if |fields| > 1 {
          assert Join(fields, ',') == fields[0] + [','] + Join(fields[1..], ',');
        }
      }
    }
  }

  /** One `name=count` item: exactly one `=`, and an int after it. */
  function ParseStatusItem(item: string): (r: Option<(string, int)>)
    ensures '=' !in item ==> r.None?
    ensures r.Some? ==>
      && '=' !in r.value.0
      && |r.value.0| < |item|
      && item[..|r.value.0| + 1] == r.value.0 + "="
      && '=' !in item[|r.value.0| + 1..]
      && ParseInt(item[|r.value.0| + 1..]) == Some(r.value.1)
    ensures |Split(item, '=')| == 2 && ParseInt(Split(item, '=')[1]).Some? ==> r.Some?
  {
    var parts := Split(item, '=');
    if |parts| != 2 then None
    else
      match ParseInt(parts[1])
      case Some(count) =>
        FirstPiece(item, '=');
        var k := |parts[0]|;
        assert item[k + 1..] == Join(parts[1..], '=') == parts[1];
        assert item[..k + 1] == item[..k] + [item[k]];
        Some((parts[0], count))
      case None => None
  }

  /** Every item, in order, or None when any item is malformed. */
  function ParseStatusItems(items: seq<string>): (r: Option<seq<(string, int)>>)
    ensures r.Some? ==> |r.value| == |items|
    ensures r.Some? ==> forall i :: 0 <= i < |items| ==> ParseStatusItem(items[i]) == Some(r.value[i])
    ensures r.None? ==> exists i :: 0 <= i < |items| && ParseStatusItem(items[i]).None?
    decreases |items|
  {
    if items == [] then Some([])
    else
      assert forall i :: 1 <= i < |items| ==> items[i] == items[1..][i - 1];
      match ParseStatusItem(items[0])
      case None => None
      case Some(entry) =>
        match ParseStatusItems(items[1..])
        case None => None
        case Some(rest) => Some([entry] + rest)
  }

  /**
   * The payload of a status message: comma-separated `name=count` items in
   * the order of play. The empty payload is an empty table.
   */
  function ParseStatus(text: string): (r: Option<seq<(string, int)>>)
    ensures text == "" ==> r == Some([])
    ensures text != "" && r.Some? ==> |r.value| == |Split(text, ',')|
    ensures text != "" && r.Some? ==>
      forall i :: 0 <= i < |r.value| ==> ParseStatusItem(Split(text, ',')[i]) == Some(r.value[i])
    ensures text != "" && r.None? ==>
      exists i :: 0 <= i < |Split(text, ',')| && ParseStatusItem(Split(text, ',')[i]).None?
  {
    if text == "" then Some([]) else ParseStatusItems(Split(text, ','))
  }

  /** A name free of `=` and a count, joined by `=`, read back as the pair. */
  lemma ParseStatusItemFormatted(entry: (string, int))
    requires '=' !in entry.0
    ensures ParseStatusItem(Server.StatusItem(entry)) == Some(entry)
  {
    FormatIntHasNo(entry.1, '=');
    SplitAtSeparator(entry.0, FormatInt(entry.1), '=');
    assert Server.StatusItem(entry) == entry.0 + ['='] + FormatInt(entry.1);
    SplitNoSeparator(FormatInt(entry.1), '=');
  }

  /**
   * The status payload the server builds reads back as the same pairs in the
   * same order, as long as no name holds a comma or an equals sign.
   */
  lemma ParseStatusFormatted(data: seq<(string, int)>)
    requires forall i :: 0 <= i < |data| ==> ',' !in data[i].0 && '=' !in data[i].0
    ensures ParseStatus(Server.StatusPayload(data)) == Some(data)
  {
    var items := Server.StatusItems(data);
    if data != [] {
      forall i | 0 <= i < |items| ensures ',' !in items[i] && ParseStatusItem(items[i]) == Some(data[i]) {
        FormatIntHasNo(data[i].1, ',');
        ParseStatusItemFormatted(data[i]);
      }
      SplitJoin(items, ',');
      StatusItemsRead(items, data);
      assert Server.StatusPayload(data) != "" by {
        assert |items[0]| >= 1;
        if |items| > 1 {
          assert Join(items, ',') == items[0] + [','] + Join(items[1..], ',');
        }
      }
    }
  }

  /** Items that each read back as one pair read back, together, as those pairs. */
  lemma {:induction false} StatusItemsRead(items: seq<string>, data: seq<(string, int)>)
    requires |items| == |data|
    requires forall i :: 0 <= i < |items| ==> ParseStatusItem(items[i]) == Some(data[i])
    ensures ParseStatusItems(items) == Some(data)
    decreases |items|
  {
    if items != [] {
      var ti, td := items[1..], data[1..];
      forall i | 0 <= i < |ti| ensures ParseStatusItem(ti[i]) == Some(td[i]) {
        assert ti[i] == items[i + 1] && td[i] == data[i + 1];
      }
      StatusItemsRead(ti, td);
      assert ParseStatusItem(items[0]) == Some(data[0]);
      assert data == [data[0]] + td;
    }
  }

  /** A comma inside a name breaks the read-back: "a,b" with one die is unreadable. */
  lemma CommaInNameBreaksStatus()
    ensures Server.StatusPayload([("a,b", 1)]) == "a,b=1"
    ensures ParseStatus("a,b=1") == None
  {
    assert FormatInt(1) == "1" by { assert DigitChar(1) == '1'; }
    assert Server.StatusItem(("a,b", 1)) == "a,b=1";
    assert Server.StatusItems([("a,b", 1)]) == ["a,b=1"];
    SplitAtSeparator("a", "b=1", ',');
    SplitNoSeparator("b=1", ',');
    SplitNoSeparator("a", '=');
  }

  /** The state a client keeps from the server's messages. */
  class Player {
    var hand: seq<int>
    var playerStatus: seq<(string, int)>

    constructor ()
      ensures hand == [] && playerStatus == []
    {
      hand := [];
      playerStatus := [];
    }

    /** `_received_hand`: store the parsed, sorted hand; an unreadable payload changes nothing. */
    method ReceivedHand(text: string) returns (ok: bool)
      modifies this
      ensures ok <==> ParseHand(text).Some?
      ensures ok ==> hand == ParseHand(text).value && playerStatus == old(playerStatus)
      ensures !ok ==> unchanged(this)
    {
      var r := ParseHand(text);
      ok := r.Some?;
      if ok {
        hand := r.value;
      }
    }

    /** `_received_player_status`: store the parsed table in order of play; an unreadable payload changes nothing. */
    method ReceivedPlayerStatus(text: string) returns (ok: bool)
      modifies this
      ensures ok <==> ParseStatus(text).Some?
      ensures ok ==> playerStatus == ParseStatus(text).value && hand == old(hand)
      ensures !ok ==> unchanged(this)
    {
      var r := ParseStatus(text);
      ok := r.Some?;
      if ok {
        playerStatus := r.value;
      }
    }
  }
}
