/**
 * Database tables as sequences of rows: the generic facts that the record
 * constraints and the queries of the votes app are built from.
 */
module Tables {

  datatype Option<T> = None | Some(value: T)

  /** No two rows of `s` agree on `key` (a `unique_together` constraint). */
  ghost predicate Unique<T, K>(s: seq<T>, key: T -> K) {
    forall i, j :: 0 <= i < j < |s| ==> key(s[i]) != key(s[j])
  }

  function Identity<T>(x: T): T { x }

  /** No element occurs twice: the elements themselves are a unique key. */
  ghost predicate Distinct<T>(s: seq<T>) {
    Unique(s, Identity)
  }

  /** The rows of `s` that `keep` accepts, in table order (a `filter`). */
  function Filter<T(!new)>(s: seq<T>, keep: T -> bool): (r: seq<T>)
    ensures |r| <= |s|
    ensures forall x :: x in r <==> x in s && keep(x)
  {
    if s == [] then []
    else (if keep(s[0]) then [s[0]] else []) + Filter(s[1..], keep)
  }

  /** Filtering a table with rows appended filters both parts. */
  lemma {:induction false} FilterConcat<T(!new)>(a: seq<T>, b: seq<T>, keep: T -> bool)
    ensures Filter(a + b, keep) == Filter(a, keep) + Filter(b, keep)
  {
    if a == [] {
      assert a + b == b;
    } else {
      assert (a + b)[1..] == a[1..] + b;
      FilterConcat(a[1..], b, keep);
    }
  }

  /** A filter that accepts every row keeps the table as it is. */
  lemma {:induction false} FilterKeepsAll<T(!new)>(s: seq<T>, keep: T -> bool)
    requires forall x :: x in s ==> keep(x)
    ensures Filter(s, keep) == s
  {
    if s != [] {
      FilterKeepsAll(s[1..], keep);
    }
  }

  /** A filter that rejects every row leaves nothing. */
  lemma {:induction false} FilterDropsAll<T(!new)>(s: seq<T>, keep: T -> bool)
    requires forall x :: x in s ==> !keep(x)
    ensures Filter(s, keep) == []
  {
    if s != [] {
      FilterDropsAll(s[1..], keep);
    }
  }

  /** Deleting rows never breaks a uniqueness constraint. */
  lemma {:induction false} FilterUnique<T(!new), K>(s: seq<T>, keep: T -> bool, key: T -> K)
    requires Unique(s, key)
    ensures Unique(Filter(s, keep), key)
  {
    if s != [] {
      FilterUnique(s[1..], keep, key);
      var rest := Filter(s[1..], keep);
      forall y | y in rest ensures key(y) != key(s[0]) {
        var j :| 0 <= j < |s[1..]| && s[1..][j] == y;
        assert s[j + 1] == y;
      }
      var r := Filter(s, keep);
      if keep(s[0]) {
        assert r == [s[0]] + rest;
        forall i, j | 0 <= i < j < |r| ensures key(r[i]) != key(r[j]) {
          if i == 0 {
            assert r[j] == rest[j - 1] && r[j] in rest;
          } else {
            assert r[i] == rest[i - 1] && r[j] == rest[j - 1];
          }
        }
      } else {
        assert r == rest;
      }
    }
  }

  /** Inserting a row whose key is new keeps a uniqueness constraint. */
  lemma AppendUnique<T, K>(s: seq<T>, x: T, key: T -> K)
    requires Unique(s, key)
    requires forall y :: y in s ==> key(y) != key(x)
    ensures Unique(s + [x], key)
  {
    var r := s + [x];
    forall i, j | 0 <= i < j < |r| ensures key(r[i]) != key(r[j]) {
      if j == |s| {
        assert r[i] == s[i] && r[i] in s;
      } else {
        assert r[i] == s[i] && r[j] == s[j];
      }
    }
  }

  /** Rewriting a row without touching its key keeps a uniqueness constraint. */
  lemma UpdateUnique<T, K>(s: seq<T>, i: nat, x: T, key: T -> K)
    requires Unique(s, key)
    requires i < |s| && key(x) == key(s[i])
    ensures Unique(s[i := x], key)
  {
    var r := s[i := x];
    forall j, k | 0 <= j < k < |r| ensures key(r[j]) != key(r[k]) {
      assert key(r[j]) == key(s[j]) && key(r[k]) == key(s[k]);
    }
  }

  /** Appending the next element of `s` to a table ending in a prefix of
      `s` gives the table ending in the longer prefix. */
  lemma PrefixExtends<T>(t: seq<T>, s: seq<T>, i: nat)
    requires i < |s|
    ensures t + s[..i] + [s[i]] == t + s[..i + 1]
  {
    assert s[..i + 1] == s[..i] + [s[i]];
  }

  /** Adding an element that is not yet present keeps the elements distinct. */
  lemma AppendDistinct<T>(s: seq<T>, x: T)
    requires Distinct(s) && x !in s
    ensures Distinct(s + [x])
  {
    AppendUnique(s, x, Identity);
  }
}
