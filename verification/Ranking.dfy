/** Sorting by descending score, as the retrieval code's stable sorts do. */
module Ranking {
  datatype Scored<+T> = Scored(score: real, item: T)

  predicate Descending<T>(s: seq<Scored<T>>) {
    forall i, j :: 0 <= i < j < |s| ==> s[i].score >= s[j].score
  }

  function Insert<T>(x: Scored<T>, s: seq<Scored<T>>): (r: seq<Scored<T>>)
    ensures |r| == |s| + 1
  {
    if s == [] || x.score >= s[0].score then [x] + s else [s[0]] + Insert(x, s[1..])
  }

  /** The stable sort by descending score. */
  function Sorted<T>(s: seq<Scored<T>>): (r: seq<Scored<T>>)
    ensures |r| == |s|
  {
    if s == [] then [] else Insert(s[0], Sorted(s[1..]))
  }

  lemma {:induction false} InsertKeeps<T>(x: Scored<T>, s: seq<Scored<T>>)
    ensures multiset(Insert(x, s)) == multiset{x} + multiset(s)
  {
    if !(s == [] || x.score >= s[0].score) {
      InsertKeeps(x, s[1..]);
      assert s == [s[0]] + s[1..];
    }
  }

  lemma ConsDescending<T>(x: Scored<T>, s: seq<Scored<T>>)
    requires Descending(s) && (s == [] || x.score >= s[0].score)
    ensures Descending([x] + s)
  {
    var all := [x] + s;
    forall i, j | 0 <= i < j < |all| ensures all[i].score >= all[j].score {
      if j > 1 {
        assert s[0].score >= s[j - 1].score;
      }
    }
  }

  lemma {:induction false} InsertDescending<T>(x: Scored<T>, s: seq<Scored<T>>)
    requires Descending(s)
    ensures Descending(Insert(x, s))
  {
    if s == [] || x.score >= s[0].score {
      ConsDescending(x, s);
    } else {
      assert Descending(s[1..]);
      InsertDescending(x, s[1..]);
      var rest := Insert(x, s[1..]);
      assert rest[0] == x || (|s| > 1 && rest[0] == s[1]);
      ConsDescending(s[0], rest);
    }
  }

  /** The sort returns the same elements in descending order. */
  lemma {:induction false} SortedSorts<T>(s: seq<Scored<T>>)
    ensures Descending(Sorted(s)) && multiset(Sorted(s)) == multiset(s)
  {
    if s != [] {
      SortedSorts(s[1..]);
      InsertDescending(s[0], Sorted(s[1..]));
      InsertKeeps(s[0], Sorted(s[1..]));
      assert s == [s[0]] + s[1..];
    }
  }

  function WithScore<T>(s: seq<Scored<T>>, score: real): seq<Scored<T>> {
    if s == [] then [] else (if s[0].score == score then [s[0]] else []) + WithScore(s[1..], score)
  }

  lemma {:induction false} InsertStable<T>(x: Scored<T>, s: seq<Scored<T>>, score: real)
    requires Descending(s)
    ensures WithScore(Insert(x, s), score) == (if x.score == score then [x] else []) + WithScore(s, score)
  {
    if s == [] || x.score >= s[0].score {
      assert ([x] + s)[1..] == s;
    } else {
      assert Descending(s[1..]);
      InsertStable(x, s[1..], score);
      assert ([s[0]] + Insert(x, s[1..]))[1..] == Insert(x, s[1..]);
      if x.score == score {
        assert s[0].score != score;
      }
    }
  }

  /** Equal scores keep their order; with `SortedSorts` this determines the result. */
  lemma {:induction false} SortedStable<T>(s: seq<Scored<T>>, score: real)
    ensures WithScore(Sorted(s), score) == WithScore(s, score)
  {
    if s != [] {
      SortedStable(s[1..], score);
      SortedSorts(s[1..]);
      InsertStable(s[0], Sorted(s[1..]), score);
    }
  }

  lemma SameMembers<T>(s: seq<T>, t: seq<T>)
    requires multiset(s) == multiset(t)
    ensures forall x :: x in s <==> x in t
  {
    forall x ensures x in s <==> x in t {
      assert x in s <==> x in multiset(s);
      assert x in t <==> x in multiset(t);
    }
  }
}
