/** Row-set semantics shared by both card stores.

    A table is the sequence of its rows in rowid order. A `WHERE` clause
    that keeps rows is `Where`; an `UPDATE ... WHERE` is `Update`; a
    `UNIQUE` or `PRIMARY KEY` column is `UniqueBy` on that column. */
module Rows {

  datatype Option<T> = None | Some(value: T) {
    /** The `??` operator: the value, or `default` when absent. */
    function GetOr(default: T): T {
      if Some? then value else default
    }
  }

  /** The rows of `s` that satisfy `keep`, in their original order. */
  function Where<T(!new)>(s: seq<T>, keep: T -> bool): (r: seq<T>)
    ensures |r| <= |s|
    ensures forall x :: x in r <==> x in s && keep(x)
    ensures (forall x :: x in s ==> keep(x)) ==> r == s
    ensures (forall x :: x in s ==> !keep(x)) ==> r == []
    ensures (exists x :: x in s && !keep(x)) ==> |r| < |s|
  {
    if s == [] then []
    else (if keep(s[0]) then [s[0]] else []) + Where(s[1..], keep)
  }

  /** Filtering keeps the rows in their order: filtering a concatenation
      concatenates the filtered parts. */
  lemma {:induction false} WhereAppend<T(!new)>(s: seq<T>, t: seq<T>, keep: T -> bool)
    ensures Where(s + t, keep) == Where(s, keep) + Where(t, keep)
  {
    if s == [] {
      assert s + t == t;
    } else {
      assert (s + t)[0] == s[0];
      assert (s + t)[1..] == s[1..] + t;
      WhereAppend(s[1..], t, keep);
    }
  }

  /** `UPDATE ... SET f WHERE sel`: rows selected by `sel` are replaced by `f` of themselves. */
  function Update<T>(s: seq<T>, sel: T -> bool, f: T -> T): (r: seq<T>)
  {
    seq(|s|, i requires 0 <= i < |s| => if sel(s[i]) then f(s[i]) else s[i])
  }

  /** No two rows of `s` share a value of the column `key`. */
  ghost predicate UniqueBy<T, K>(s: seq<T>, key: T -> K) {
    forall i, j :: 0 <= i < j < |s| ==> key(s[i]) != key(s[j])
  }

  /** Appending a row whose key is new keeps the column unique. */
  lemma UniqueBySnoc<T, K>(s: seq<T>, x: T, key: T -> K)
    requires UniqueBy(s, key)
    requires forall y :: y in s ==> key(y) != key(x)
    ensures UniqueBy(s + [x], key)
  {
  }

  /** Rewriting at most one row keeps a column unique when the rewritten
      row's key differs from every other row's. */
  lemma UpdateKeepsUnique<T, K>(s: seq<T>, sel: T -> bool, f: T -> T, key: T -> K)
    requires UniqueBy(s, key)
    requires forall i, j :: 0 <= i < |s| && 0 <= j < |s| && i != j && sel(s[i]) ==>
               !sel(s[j]) && key(f(s[i])) != key(s[j])
    ensures UniqueBy(Update(s, sel, f), key)
  {
  }

  /** Deleting rows keeps a unique column unique. */
  lemma {:induction false} WhereKeepsUnique<T(!new), K>(s: seq<T>, keep: T -> bool, key: T -> K)
    requires UniqueBy(s, key)
    ensures UniqueBy(Where(s, keep), key)
  {
    if s != [] {
      var rest := Where(s[1..], keep);
      assert UniqueBy(s[1..], key) by {
        forall i, j | 0 <= i < j < |s[1..]| ensures key(s[1..][i]) != key(s[1..][j]) {
          assert s[1..][i] == s[i + 1] && s[1..][j] == s[j + 1];
        }
      }
      WhereKeepsUnique(s[1..], keep, key);
      if keep(s[0]) {
        forall y | y in rest ensures key(y) != key(s[0]) {
          assert y in s[1..];
          var j :| 0 <= j < |s[1..]| && s[1..][j] == y;
          assert s[j + 1] == y;
        }
        forall i, j | 0 <= i < j < |[s[0]] + rest|
          ensures key(([s[0]] + rest)[i]) != key(([s[0]] + rest)[j])
        {
          assert ([s[0]] + rest)[j] == rest[j - 1] && rest[j - 1] in rest;
          if i > 0 {
            assert ([s[0]] + rest)[i] == rest[i - 1];
          }
        }
      } else {
        assert Where(s, keep) == rest;
      }
    }
  }

  /** With a unique key, at most one row passes a filter that fixes the key. */
  lemma {:induction false} UniqueByAtMostOne<T(!new), K>(s: seq<T>, key: T -> K, hasK: T -> bool)
    requires UniqueBy(s, key)
    requires forall x, y :: hasK(x) && hasK(y) ==> key(x) == key(y)
    ensures |Where(s, hasK)| <= 1
  {
    if s != [] {
      assert UniqueBy(s[1..], key) by {
        forall i, j | 0 <= i < j < |s[1..]| ensures key(s[1..][i]) != key(s[1..][j]) {
          assert s[1..][i] == s[i + 1] && s[1..][j] == s[j + 1];
        }
      }
      UniqueByAtMostOne(s[1..], key, hasK);
      if hasK(s[0]) {
        forall y | y in s[1..] ensures !hasK(y) {
          var j :| 0 <= j < |s[1..]| && s[1..][j] == y;
          assert s[j + 1] == y && key(y) != key(s[0]);
        }
      }
    }
  }

}
