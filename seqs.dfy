/** Sequence helpers shared by the control plane: concatenation of pieces, the stable
    sort that stands for Python's `list.sort` and SQL `ORDER BY`, the `OFFSET`/`LIMIT`
    window, and decimal formatting of integers. */
module Seqs {

  // ---------------------------------------------------------------------------
  // Pieces of a byte stream

  /** The concatenation of a sequence of pieces. */
  function Flatten<T>(ss: seq<seq<T>>): (r: seq<T>)
    decreases |ss|
  {
    if |ss| == 0 then [] else ss[0] + Flatten(ss[1..])
  }

  lemma {:induction false} FlattenAppend<T>(a: seq<seq<T>>, b: seq<seq<T>>)
    ensures Flatten(a + b) == Flatten(a) + Flatten(b)
    decreases |a|
  {
    if |a| == 0 {
      assert a + b == b;
    } else {
      assert (a + b)[1..] == a[1..] + b;
      FlattenAppend(a[1..], b);
    }
  }

  lemma FlattenSingle<T>(s: seq<T>)
    ensures Flatten([s]) == s
  {
    assert [s][1..] == [];
  }

  /** The pieces that are not empty, in order (`if data: yield data`). */
  function DropEmpty<T>(ss: seq<seq<T>>): (r: seq<seq<T>>)
    ensures forall i :: 0 <= i < |r| ==> |r[i]| > 0
    ensures |r| <= |ss|
    decreases |ss|
  {
    if |ss| == 0 then []
    else if |ss[0]| == 0 then DropEmpty(ss[1..])
    else [ss[0]] + DropEmpty(ss[1..])
  }

  /** Dropping empty pieces never changes the bytes they carry. */
  lemma {:induction false} DropEmptyFlatten<T>(ss: seq<seq<T>>)
    ensures Flatten(DropEmpty(ss)) == Flatten(ss)
    decreases |ss|
  {
    if |ss| > 0 {
      DropEmptyFlatten(ss[1..]);
      if |ss[0]| > 0 {
        assert ([ss[0]] + DropEmpty(ss[1..]))[1..] == DropEmpty(ss[1..]);
      }
    }
  }

  lemma {:induction false} DropEmptyAppend<T>(a: seq<seq<T>>, b: seq<seq<T>>)
    ensures DropEmpty(a + b) == DropEmpty(a) + DropEmpty(b)
    decreases |a|
  {
    if |a| == 0 {
      assert a + b == b;
    } else {
      assert (a + b)[1..] == a[1..] + b;
      DropEmptyAppend(a[1..], b);
    }
  }

  // ---------------------------------------------------------------------------
  // Ordering

  predicate AscendingBy<T>(s: seq<T>, key: T -> int) {
    forall i, j :: 0 <= i < j < |s| ==> key(s[i]) <= key(s[j])
  }

  predicate StrictlyAscendingBy<T>(s: seq<T>, key: T -> int) {
    forall i, j :: 0 <= i < j < |s| ==> key(s[i]) < key(s[j])
  }

  /** Ascending by `key1`, ties broken by strictly ascending `key2`. */
  predicate LexAscendingBy<T>(s: seq<T>, key1: T -> int, key2: T -> int) {
    forall i, j :: 0 <= i < j < |s| ==>
      key1(s[i]) < key1(s[j]) || (key1(s[i]) == key1(s[j]) && key2(s[i]) < key2(s[j]))
  }

  /** Inserts `x` in front of the first element whose key is not smaller, so `x` stays
      ahead of every element with an equal key. */
  function InsertBy<T>(x: T, s: seq<T>, key: T -> int): (r: seq<T>)
    ensures multiset(r) == multiset(s) + multiset{x}
    decreases |s|
  {
    if |s| == 0 then [x]
    else if key(x) <= key(s[0]) then [x] + s
    else
      assert s == [s[0]] + s[1..];
      [s[0]] + InsertBy(x, s[1..], key)
  }

  /** Stable insertion sort by `key`: the result is a permutation of `s`, ascending by
      `key`, and elements with equal keys keep their order in `s` (LexSortedWhenStable). */
  function SortBy<T>(s: seq<T>, key: T -> int): (r: seq<T>)
    ensures multiset(r) == multiset(s)
    ensures |r| == |s|
    decreases |s|
  {
    if |s| == 0 then []
    else
      assert s == [s[0]] + s[1..];
      InsertBy(s[0], SortBy(s[1..], key), key)
  }

  /** An element no greater than every element of an ascending sequence can go in
      front of it. */
  lemma AscendingCons<T>(a: T, t: seq<T>, key: T -> int)
    requires AscendingBy(t, key)
    requires forall j :: 0 <= j < |t| ==> key(a) <= key(t[j])
    ensures AscendingBy([a] + t, key)
  {
    var s := [a] + t;
    forall i, j | 0 <= i < j < |s| ensures key(s[i]) <= key(s[j]) {
      assert s[j] == t[j - 1];
      if i > 0 {
        assert s[i] == t[i - 1];
      }
    }
  }

  lemma StrictlyAscendingCons<T>(a: T, t: seq<T>, key: T -> int)
    requires StrictlyAscendingBy(t, key)
    requires forall j :: 0 <= j < |t| ==> key(a) < key(t[j])
    ensures StrictlyAscendingBy([a] + t, key)
  {
    var s := [a] + t;
    forall i, j | 0 <= i < j < |s| ensures key(s[i]) < key(s[j]) {
      assert s[j] == t[j - 1];
      if i > 0 {
        assert s[i] == t[i - 1];
      }
    }
  }

  lemma LexAscendingCons<T>(a: T, t: seq<T>, key1: T -> int, key2: T -> int)
    requires LexAscendingBy(t, key1, key2)
    requires forall j :: 0 <= j < |t| ==>
               key1(a) < key1(t[j]) || (key1(a) == key1(t[j]) && key2(a) < key2(t[j]))
    ensures LexAscendingBy([a] + t, key1, key2)
  {
    var s := [a] + t;
    forall i, j | 0 <= i < j < |s|
      ensures key1(s[i]) < key1(s[j]) || (key1(s[i]) == key1(s[j]) && key2(s[i]) < key2(s[j]))
    {
      assert s[j] == t[j - 1];
      if i > 0 {
        assert s[i] == t[i - 1];
      }
    }
  }

  lemma {:induction false} InsertByAscending<T>(x: T, s: seq<T>, key: T -> int)
    requires AscendingBy(s, key)
    ensures AscendingBy(InsertBy(x, s, key), key)
    decreases |s|
  {
    if |s| > 0 && key(x) > key(s[0]) {
      var t := InsertBy(x, s[1..], key);
      assert AscendingBy(s[1..], key);
      InsertByAscending(x, s[1..], key);
      forall j | 0 <= j < |t| ensures key(s[0]) <= key(t[j]) {
        var y := t[j];
        assert y in multiset(t);
        if y != x {
          assert y in multiset(s[1..]);
          var k :| 0 <= k < |s[1..]| && s[1..][k] == y;
          assert s[k + 1] == y;
        }
      }
      AscendingCons(s[0], t, key);
    } else if |s| > 0 {
      AscendingCons(x, s, key);
    }
  }

  lemma {:induction false} SortByAscending<T>(s: seq<T>, key: T -> int)
    ensures AscendingBy(SortBy(s, key), key)
    decreases |s|
  {
    if |s| > 0 {
      SortByAscending(s[1..], key);
      InsertByAscending(s[0], SortBy(s[1..], key), key);
    }
  }

  lemma {:induction false} InsertByLex<T>(x: T, s: seq<T>, key1: T -> int, key2: T -> int)
    requires LexAscendingBy(s, key1, key2)
    requires forall y :: y in s ==> key2(x) < key2(y)
    ensures LexAscendingBy(InsertBy(x, s, key1), key1, key2)
    decreases |s|
  {
    if |s| > 0 && key1(x) > key1(s[0]) {
      var t := InsertBy(x, s[1..], key1);
      assert LexAscendingBy(s[1..], key1, key2);
      InsertByLex(x, s[1..], key1, key2);
      forall j | 0 <= j < |t|
        ensures key1(s[0]) < key1(t[j]) || (key1(s[0]) == key1(t[j]) && key2(s[0]) < key2(t[j]))
      {
        var y := t[j];
        assert y in multiset(t);
        if y != x {
          assert y in multiset(s[1..]);
          var k :| 0 <= k < |s[1..]| && s[1..][k] == y;
          assert s[k + 1] == y;
        }
      }
      LexAscendingCons(s[0], t, key1, key2);
    } else if |s| > 0 {
      forall j | 0 <= j < |s|
        ensures key1(x) < key1(s[j]) || (key1(x) == key1(s[j]) && key2(x) < key2(s[j]))
      {
        assert s[j] in s;
      }
      LexAscendingCons(x, s, key1, key2);
    } else {
      LexAscendingCons(x, s, key1, key2);
    }
  }

  /** Stability: sorting a sequence that is strictly ascending by `key2` on `key1` keeps
      equal `key1` elements in `key2` order. */
  lemma {:induction false} LexSortedWhenStable<T>(s: seq<T>, key1: T -> int, key2: T -> int)
    requires StrictlyAscendingBy(s, key2)
    ensures LexAscendingBy(SortBy(s, key1), key1, key2)
    decreases |s|
  {
    if |s| > 0 {
      var t := SortBy(s[1..], key1);
      assert StrictlyAscendingBy(s[1..], key2);
      LexSortedWhenStable(s[1..], key1, key2);
      forall y | y in t ensures key2(s[0]) < key2(y) {
        assert y in multiset(t);
        assert y in multiset(s[1..]);
        var k :| 0 <= k < |s[1..]| && s[1..][k] == y;
        assert s[k + 1] == y;
      }
      InsertByLex(s[0], t, key1, key2);
    }
  }

  /** Sorting a sequence that is already ascending leaves it unchanged. */
  lemma StrictlyAscendingIsAscending<T>(s: seq<T>, key: T -> int)
    requires StrictlyAscendingBy(s, key)
    ensures AscendingBy(s, key)
  {
  }

  lemma {:induction false} SortByIdentity<T>(s: seq<T>, key: T -> int)
    requires AscendingBy(s, key)
    ensures SortBy(s, key) == s
    decreases |s|
  {
    if |s| > 0 {
      assert AscendingBy(s[1..], key);
      SortByIdentity(s[1..], key);
      assert s == [s[0]] + s[1..];
    }
  }

  // ---------------------------------------------------------------------------
  // Paging

  /** SQL `OFFSET skip LIMIT limit`: the elements of `s` from position `skip`, at most `limit` of them. */
  function Window<T>(s: seq<T>, skip: nat, limit: nat): (r: seq<T>)
    ensures |r| <= limit
    ensures |r| == if skip >= |s| then 0 else if |s| - skip < limit then |s| - skip else limit
    ensures forall k :: 0 <= k < |r| ==> r[k] == s[skip + k]
  {
    if skip >= |s| then []
    else if skip + limit <= |s| then s[skip..skip + limit]
    else s[skip..]
  }

  /** A window holds only elements of the sequence. */
  lemma WindowInside<T>(s: seq<T>, skip: nat, limit: nat)
    ensures forall x :: x in Window(s, skip, limit) ==> x in s
  {
    var r := Window(s, skip, limit);
    forall x | x in r ensures x in s {
      var k :| 0 <= k < |r| && r[k] == x;
      assert s[skip + k] == x;
    }
  }

  /** Every element of `s` is in the window of exactly the page that holds its position. */
  lemma WindowCovers<T>(s: seq<T>, i: nat, size: nat)
    requires i < |s| && size > 0
    ensures var page := i / size;
            0 <= i - page * size < size &&
            s[i] in Window(s, page * size, size)
  {
    var page := i / size;
    var skip := page * size;
    assert skip <= i < skip + size;
    var r := Window(s, skip, size);
    assert r[i - skip] == s[i];
  }

  // ---------------------------------------------------------------------------
  // Decimal formatting

  function DigitChar(d: nat): (c: char)
    requires d < 10
    ensures '0' <= c <= '9'
  {
    "0123456789"[d]
  }

  /** Python's `str(n)` for a non-negative integer. */
  function NatToString(n: nat): (r: string)
    ensures |r| > 0
    ensures forall i :: 0 <= i < |r| ==> '0' <= r[i] <= '9'
    decreases n
  {
    if n < 10 then [DigitChar(n)] else NatToString(n / 10) + [DigitChar(n % 10)]
  }

  /** Python's `str(n)` for any integer. */
  function IntToString(n: int): (r: string)
    ensures |r| > 0
    ensures (r[0] == '-') <==> n < 0
  {
    if n < 0 then "-" + NatToString(-n) else NatToString(n)
  }

  /** Concatenation regrouped, for steps the solver would otherwise have to find. */
  lemma AppendAssoc<T>(a: seq<T>, b: seq<T>, c: seq<T>)
    ensures (a + b) + c == a + (b + c)
  {
  }
}
