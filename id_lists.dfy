/**
 * The two array updates the user controller sends to MongoDB on an id list:
 * `$push` appends one element, `$pull` removes every element equal to the
 * given one. Lists of ids are sequences, and a list "has no duplicate edges"
 * when no id occurs in it twice.
 */
module IdLists {

  /** MongoDB `$push`: the value is appended, even when it is already present. */
  function Push<T(==,!new)>(s: seq<T>, x: T): (r: seq<T>)
    ensures |r| == |s| + 1 && r[..|s|] == s && r[|s|] == x
    ensures forall y :: y in r <==> y in s || y == x
  {
    s + [x]
  }

  /** MongoDB `$pull` with an equality condition: every occurrence is removed, order of the rest is kept. */
  function Pull<T(==,!new)>(s: seq<T>, x: T): (r: seq<T>)
    ensures forall y :: y in r <==> y in s && y != x
    ensures |r| <= |s|
    ensures x !in s ==> r == s
  {
    if s == [] then []
    else if s[0] == x then Pull(s[1..], x)
    else [s[0]] + Pull(s[1..], x)
  }

  /** `$pull` keeps every other element with its multiplicity and drops every copy of the value. */
  lemma {:induction false} PullCounts<T(!new)>(s: seq<T>, x: T)
    ensures multiset(Pull(s, x)) == multiset(s)[x := 0]
  {
    if s != [] {
      assert s == [s[0]] + s[1..];
      PullCounts(s[1..], x);
    }
  }

  /**
   * `$pull` keeps the order of what it leaves: pulling from a concatenation
   * pulls from each part. With `PullCounts`, this fixes the
   * result completely, element by element.
   */
  lemma {:induction false} PullAppend<T(!new)>(a: seq<T>, b: seq<T>, x: T)
    ensures Pull(a + b, x) == Pull(a, x) + Pull(b, x)
  {
    if a == [] {
      assert a + b == b;
    } else {
      assert (a + b)[1..] == a[1..] + b;
      PullAppend(a[1..], b, x);
    }
  }

  predicate NoDuplicates<T(==)>(s: seq<T>) {
    forall i, j :: 0 <= i < j < |s| ==> s[i] != s[j]
  }

  /** Pulling never introduces a duplicate. */
  lemma {:induction false} PullKeepsNoDuplicates<T(!new)>(s: seq<T>, x: T)
    requires NoDuplicates(s)
    ensures NoDuplicates(Pull(s, x))
  {
    if s != [] {
      PullKeepsNoDuplicates(s[1..], x);
      if s[0] != x {
        var rest := Pull(s[1..], x);
        assert s[0] !in s[1..];
        forall i, j | 0 <= i < j < |[s[0]] + rest|
          ensures ([s[0]] + rest)[i] != ([s[0]] + rest)[j]
        {
          if i == 0 {
            assert ([s[0]] + rest)[j] == rest[j - 1];
            assert rest[j - 1] in rest;
          }
        }
      }
    }
  }

  /** Pushing an absent value keeps the list free of duplicates. */
  lemma PushKeepsNoDuplicates<T(!new)>(s: seq<T>, x: T)
    requires NoDuplicates(s) && x !in s
    ensures NoDuplicates(Push(s, x))
  {
    var r := Push(s, x);
    forall i, j | 0 <= i < j < |r| ensures r[i] != r[j] {
      if j == |s| {
        assert r[i] == s[i];
      } else {
        assert r[i] == s[i] && r[j] == s[j];
      }
    }
  }

  /** `$pull` undoes a `$push` of a value that was absent. */
  lemma {:induction false} PullUndoesPush<T(!new)>(s: seq<T>, x: T)
    requires x !in s
    ensures Pull(Push(s, x), x) == s
  {
    if s == [] {
      assert Push(s, x)[1..] == [];
    } else {
      assert Push(s, x)[1..] == Push(s[1..], x);
      PullUndoesPush(s[1..], x);
      assert [s[0]] + s[1..] == s;
    }
  }
}
