/** Room numbers are text, so ordering search results "by room number" is a
    text order: character by character, a proper prefix first. */
module RoomOrder {
  import opened Store

  /** `a` sorts no later than `b` in code-point lexicographic order. */
  predicate NumberLe(a: string, b: string)
    decreases |a|
  {
    |a| == 0 || (|b| > 0 && (a[0] < b[0] || (a[0] == b[0] && NumberLe(a[1..], b[1..]))))
  }

  lemma {:induction false} NumberLeTotal(a: string, b: string)
    ensures NumberLe(a, b) || NumberLe(b, a)
    decreases |a|
  {
    if |a| > 0 && |b| > 0 && a[0] == b[0] {
      NumberLeTotal(a[1..], b[1..]);
    }
  }

  lemma {:induction false} NumberLeTransitive(a: string, b: string, c: string)
    requires NumberLe(a, b) && NumberLe(b, c)
    ensures NumberLe(a, c)
    decreases |a|
  {
    if |a| > 0 && a[0] == b[0] && b[0] == c[0] {
      NumberLeTransitive(a[1..], b[1..], c[1..]);
    }
  }

  lemma {:induction false} NumberLeAntisymmetric(a: string, b: string)
    requires NumberLe(a, b) && NumberLe(b, a)
    ensures a == b
    decreases |a|
  {
    if |a| > 0 {
      NumberLeAntisymmetric(a[1..], b[1..]);
      assert a == [a[0]] + a[1..] && b == [b[0]] + b[1..];
    }
  }

  ghost predicate SortedByNumber(rooms: seq<Room>) {
    forall i, j :: 0 <= i < j < |rooms| ==> NumberLe(rooms[i].number, rooms[j].number)
  }

  /** Puts `x` into the sorted `rooms` in front of the first room it does not follow. */
  function Insert(x: Room, rooms: seq<Room>): (r: seq<Room>)
    requires SortedByNumber(rooms)
    ensures SortedByNumber(r)
    ensures multiset(r) == multiset(rooms) + multiset{x}
  {
    if |rooms| == 0 then [x]
    else if NumberLe(x.number, rooms[0].number) then
      forall j | 0 <= j < |rooms| ensures NumberLe(x.number, rooms[j].number) {
        if j > 0 {
          NumberLeTransitive(x.number, rooms[0].number, rooms[j].number);
        }
      }
      SortedCons(x, rooms);
      [x] + rooms
    else
      NumberLeTotal(x.number, rooms[0].number);
      var rest := Insert(x, rooms[1..]);
      InsertStep(x, rooms, rest);
      [rooms[0]] + rest
  }

  /** A room that sorts no later than every room of a sorted list can lead it. */
  lemma SortedCons(y: Room, rooms: seq<Room>)
    requires SortedByNumber(rooms)
    requires forall j :: 0 <= j < |rooms| ==> NumberLe(y.number, rooms[j].number)
    ensures SortedByNumber([y] + rooms)
  {
    forall i, j | 0 <= i < j < |[y] + rooms|
      ensures NumberLe(([y] + rooms)[i].number, ([y] + rooms)[j].number)
    {
      if i > 0 {
        assert ([y] + rooms)[i] == rooms[i - 1] && ([y] + rooms)[j] == rooms[j - 1];
      } else {
        assert ([y] + rooms)[j] == rooms[j - 1];
      }
    }
  }

  /** The recursive case of `Insert`: the head stays in front of the rest
      with `x` inserted. */
  lemma InsertStep(x: Room, rooms: seq<Room>, rest: seq<Room>)
    requires |rooms| > 0 && SortedByNumber(rooms) && NumberLe(rooms[0].number, x.number)
    requires SortedByNumber(rest) && multiset(rest) == multiset(rooms[1..]) + multiset{x}
    ensures SortedByNumber([rooms[0]] + rest)
    ensures multiset([rooms[0]] + rest) == multiset(rooms) + multiset{x}
  {
    assert rooms == [rooms[0]] + rooms[1..];
    forall j | 0 <= j < |rest| ensures NumberLe(rooms[0].number, rest[j].number) {
      assert rest[j] in multiset(rest);
      if rest[j] != x {
        assert rest[j] in multiset(rooms[1..]);
        var k :| 0 <= k < |rooms[1..]| && rooms[1..][k] == rest[j];
        assert rooms[k + 1] == rest[j];
      }
    }
    SortedCons(rooms[0], rest);
  }

  /** Insertion sort by room number. */
  function SortByNumber(rooms: seq<Room>): (r: seq<Room>)
    ensures SortedByNumber(r)
    ensures multiset(r) == multiset(rooms)
  {
    if |rooms| == 0 then []
    else
      assert rooms == [rooms[0]] + rooms[1..];
      Insert(rooms[0], SortByNumber(rooms[1..]))
  }

  /** With distinct room numbers there is only one order by room number:
      any two sorted arrangements of the same rooms are equal. */
  lemma {:induction false} SortedPermutationUnique(a: seq<Room>, b: seq<Room>)
    requires SortedByNumber(a) && SortedByNumber(b)
    requires multiset(a) == multiset(b)
    requires forall i, j :: 0 <= i < j < |a| ==> a[i].number != a[j].number
    ensures a == b
    decreases |a|
  {
    assert |a| == |multiset(a)| == |multiset(b)| == |b|;
    if |a| > 0 {
      assert a[0] in multiset(b) && b[0] in multiset(a);
      var i :| 0 <= i < |b| && b[i] == a[0];
      var j :| 0 <= j < |a| && a[j] == b[0];
      NumberLeReflexive(a[0].number);
      assert NumberLe(b[0].number, a[0].number) by {
        if i > 0 { assert NumberLe(b[0].number, b[i].number); }
      }
      assert NumberLe(a[0].number, b[0].number) by {
        if j > 0 { assert NumberLe(a[0].number, a[j].number); }
      }
      NumberLeAntisymmetric(a[0].number, b[0].number);
      assert j == 0;
      TailMultiset(a, b);
      SortedPermutationUnique(a[1..], b[1..]);
      assert a == [a[0]] + a[1..] && b == [b[0]] + b[1..];
    }
  }

  lemma {:induction false} NumberLeReflexive(a: string)
    ensures NumberLe(a, a)
    decreases |a|
  {
    if |a| > 0 {
      NumberLeReflexive(a[1..]);
    }
  }

  lemma TailMultiset(a: seq<Room>, b: seq<Room>)
    requires |a| > 0 && |b| > 0 && a[0] == b[0] && multiset(a) == multiset(b)
    ensures multiset(a[1..]) == multiset(b[1..])
  {
    assert a == [a[0]] + a[1..] && b == [b[0]] + b[1..];
    assert multiset(a) == multiset{a[0]} + multiset(a[1..]);
    assert multiset(b) == multiset{b[0]} + multiset(b[1..]);
    forall z ensures multiset(a[1..])[z] == multiset(b[1..])[z] {
      assert multiset(a)[z] == multiset(b)[z];
    }
  }
}
