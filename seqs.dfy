/**
 * Sequence operations shared by the model: removing every occurrence of a
 * value, inserting at a position, `Array.prototype.indexOf`, and the
 * "no duplicates" property of a list of DOM children.
 */
module Seqs {

  /** No value occurs twice. */
  predicate NoDup<T(==)>(s: seq<T>) {
    forall i, j :: 0 <= i < j < |s| ==> s[i] != s[j]
  }

  /** `s` with every occurrence of `x` taken out, the rest in its original order. */
  function Remove<T(==,!new)>(s: seq<T>, x: T): (r: seq<T>)
    ensures x !in r
    ensures forall y :: y in r <==> y in s && y != x
    ensures x !in s ==> r == s
    ensures NoDup(s) ==> NoDup(r)
    ensures |r| <= |s|
  {
    if s == [] then []
    else
      var rest := Remove(s[1..], x);
      if s[0] == x then rest
      else
        assert NoDup(s) ==> NoDup([s[0]] + rest) by {
          if NoDup(s) {
            NoDupTail(s);
            var t := [s[0]] + rest;
            forall i, j | 0 <= i < j < |t| ensures t[i] != t[j] {
              if i == 0 { assert t[j] in rest; }
              else { assert t[i] == rest[i - 1] && t[j] == rest[j - 1]; }
            }
          }
        }
        [s[0]] + rest
  }

  lemma NoDupTail<T>(s: seq<T>)
    requires NoDup(s) && s != []
    ensures NoDup(s[1..]) && s[0] !in s[1..]
  {
    forall i, j | 0 <= i < j < |s| - 1 ensures s[1..][i] != s[1..][j] {
      assert s[1..][i] == s[i + 1] && s[1..][j] == s[j + 1];
    }
  }

  /** `x` placed so that it ends up at index `i`. */
  function Insert<T>(s: seq<T>, i: nat, x: T): (r: seq<T>)
    requires i <= |s|
    ensures |r| == |s| + 1 && r[i] == x
    ensures r[..i] == s[..i] && r[i + 1..] == s[i..]
  {
    s[..i] + [x] + s[i..]
  }

  /** `Array.prototype.indexOf`: the first index of `x`, or -1 when it is absent. */
  function IndexOf<T(==)>(s: seq<T>, x: T): (r: int)
    ensures -1 <= r < |s|
    ensures r == -1 <==> x !in s
    ensures 0 <= r ==> s[r] == x && x !in s[..r]
  {
    if s == [] then -1
    else if s[0] == x then 0
    else
      var k := IndexOf(s[1..], x);
      if k == -1 then -1
      else
        assert s[..k + 1] == [s[0]] + s[1..][..k];
        k + 1
  }

  lemma IndexOfUnique<T>(s: seq<T>, i: nat)
    requires NoDup(s) && i < |s|
    ensures IndexOf(s, s[i]) == i
  {
  }

  lemma {:induction false} RemoveConcat<T(!new)>(a: seq<T>, b: seq<T>, x: T)
    ensures Remove(a + b, x) == Remove(a, x) + Remove(b, x)
  {
    if a == [] {
      assert a + b == b;
    } else {
      assert (a + b)[0] == a[0] && (a + b)[1..] == a[1..] + b;
      RemoveConcat(a[1..], b, x);
    }
  }

  /** In a list without duplicates, removing `s[i]` closes the gap at `i`. */
  lemma {:induction false} RemoveAt<T(!new)>(s: seq<T>, i: nat)
    requires NoDup(s) && i < |s|
    ensures Remove(s, s[i]) == s[..i] + s[i + 1..]
  {
    NoDupTail(s);
    if i == 0 {
      assert Remove(s, s[0]) == Remove(s[1..], s[0]);
    } else {
      assert s[0] != s[i];
      assert s[1..][i - 1] == s[i];
      RemoveAt(s[1..], i - 1);
      assert s[..i] == [s[0]] + s[1..][..i - 1];
      assert s[i + 1..] == s[1..][i..];
    }
  }

  /** Putting `s[i]` back at `i` after removing it gives the list back. */
  lemma InsertRemoveAt<T(!new)>(s: seq<T>, i: nat)
    requires NoDup(s) && i < |s|
    ensures |Remove(s, s[i])| == |s| - 1
    ensures Insert(Remove(s, s[i]), i, s[i]) == s
  {
    RemoveAt(s, i);
    var rest := Remove(s, s[i]);
    assert rest[..i] == s[..i];
    assert rest[i..] == s[i + 1..];
  }

  /** Removing what was just inserted gives the list back. */
  lemma RemoveInsert<T(!new)>(s: seq<T>, i: nat, x: T)
    requires x !in s && i <= |s|
    ensures Remove(Insert(s, i, x), x) == s
  {
    RemoveConcat(s[..i] + [x], s[i..], x);
    RemoveConcat(s[..i], [x], x);
    assert x !in s[..i] && x !in s[i..];
    assert s[..i] + s[i..] == s;
  }

  /** Inserting a value absent from a duplicate-free list keeps it duplicate-free. */
  lemma InsertNoDup<T>(s: seq<T>, i: nat, x: T)
    requires NoDup(s) && x !in s && i <= |s|
    ensures NoDup(Insert(s, i, x))
  {
    var r := Insert(s, i, x);
    forall a, b | 0 <= a < b < |r| ensures r[a] != r[b] {
      if a < i {
        assert r[a] == s[a];
        if b > i { assert r[b] == s[b - 1]; }
      } else if a == i {
        assert r[b] == s[b - 1];
      } else {
        assert r[a] == s[a - 1] && r[b] == s[b - 1];
      }
    }
  }

  lemma InsertMembers<T(!new)>(s: seq<T>, i: nat, x: T)
    requires i <= |s|
    ensures forall y :: y in Insert(s, i, x) <==> y in s || y == x
  {
    assert Insert(s, i, x) == s[..i] + [x] + s[i..];
    assert s == s[..i] + s[i..];
  }

  /** Appending after an existing value does not change where it is first found. */
  lemma {:induction false} IndexOfAppend<T>(s: seq<T>, y: T, x: T)
    requires x in s
    ensures IndexOf(s + [y], x) == IndexOf(s, x)
  {
    if s[0] != x {
      assert (s + [y])[1..] == s[1..] + [y];
      IndexOfAppend(s[1..], y, x);
    }
  }

  /** A prefix grows by the next element. */
  lemma TakeNext<T>(s: seq<T>, i: nat)
    requires i < |s|
    ensures s[..i + 1] == s[..i] + [s[i]]
  {
  }
}
