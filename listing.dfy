/** The list handler `GET /quizzes`: the query `orderBy('createdOn', 'desc')
    .limit(10)` over the quizzes, each result the stored fields of one quiz
    (`doc.data()`, without the id). Firestore leaves out documents that lack the
    ordered field and breaks ties on the document id, in the direction of the
    last ordering, so here in descending id order. */
module Listing {
  import opened Documents

  const Limit: nat := 10

  /** Lexicographic order on strings, by Unicode code point (the order of
      their UTF-8 bytes, in which Firestore compares document ids). */
  predicate StrLess(a: string, b: string)
    ensures StrLess(a, b) ==> a != b
    ensures IsPrefix(a, b) && a != b ==> StrLess(a, b)
    decreases |a|
  {
    if |a| == 0 then |b| > 0
    else if |b| == 0 then false
    else a[0] < b[0] || (a[0] == b[0] && StrLess(a[1..], b[1..]))
  }

  lemma {:induction false} StrLessAsymmetric(a: string, b: string)
    ensures StrLess(a, b) ==> !StrLess(b, a)
    decreases |a|
  {
    if |a| > 0 && |b| > 0 {
      StrLessAsymmetric(a[1..], b[1..]);
    }
  }

  lemma {:induction false} StrLessTransitive(a: string, b: string, c: string)
    requires StrLess(a, b) && StrLess(b, c)
    ensures StrLess(a, c)
    decreases |a|
  {
    if |a| > 0 && a[0] == b[0] && b[0] == c[0] {
      StrLessTransitive(a[1..], b[1..], c[1..]);
    }
  }

  lemma {:induction false} StrLessTotal(a: string, b: string)
    requires a != b
    ensures StrLess(a, b) || StrLess(b, a)
    decreases |a|
  {
    if |a| > 0 && |b| > 0 && a[0] == b[0] {
      assert a == [a[0]] + a[1..] && b == [b[0]] + b[1..];
      StrLessTotal(a[1..], b[1..]);
    }
  }

  /** A quiz that has a timestamp `createdOn`, so the query orders it. */
  predicate Stamped(d: Doc)
  {
    "createdOn" in d && d["createdOn"].Time?
  }

  function StampOf(d: Doc): int
    requires Stamped(d)
  {
    d["createdOn"].stamp
  }

  /** The quizzes the query orders: those with a timestamp `createdOn`. */
  function Eligible(quizzes: Coll): (r: set<string>)
    ensures r <= quizzes.Keys
    ensures forall id :: id in r ==> Stamped(quizzes[id])
    ensures forall id :: id in quizzes && Stamped(quizzes[id]) ==> id in r
  {
    set id | id in quizzes && Stamped(quizzes[id])
  }

  /** Quiz `a` comes before quiz `b` in the query's order: newer first, and
      between equal timestamps the greater id first. */
  predicate Precedes(quizzes: Coll, a: string, b: string)
    ensures Precedes(quizzes, a, b) ==>
              && a != b && a in Eligible(quizzes) && b in Eligible(quizzes)
              && StampOf(quizzes[a]) >= StampOf(quizzes[b])
  {
    StrLessAsymmetric(b, a);
    && a in Eligible(quizzes) && b in Eligible(quizzes)
    && (|| StampOf(quizzes[a]) > StampOf(quizzes[b])
        || (StampOf(quizzes[a]) == StampOf(quizzes[b]) && StrLess(b, a)))
  }

  lemma PrecedesAsymmetric(quizzes: Coll)
    ensures forall a, b :: Precedes(quizzes, a, b) ==> !Precedes(quizzes, b, a)
  {
    forall a, b | Precedes(quizzes, a, b)
      ensures !Precedes(quizzes, b, a)
    {
      StrLessAsymmetric(b, a);
    }
  }

  lemma PrecedesTransitive(quizzes: Coll, a: string, b: string, c: string)
    requires Precedes(quizzes, a, b) && Precedes(quizzes, b, c)
    ensures Precedes(quizzes, a, c)
  {
    if StampOf(quizzes[a]) == StampOf(quizzes[b]) == StampOf(quizzes[c]) {
      StrLessTransitive(c, b, a);
    }
  }

  lemma PrecedesTotal(quizzes: Coll, a: string, b: string)
    requires a in Eligible(quizzes) && b in Eligible(quizzes) && a != b
    ensures Precedes(quizzes, a, b) || Precedes(quizzes, b, a)
  {
    StrLessTotal(a, b);
  }

  /** Every non-empty set of ordered quizzes has a first one. */
  lemma {:induction false} FirstExists(quizzes: Coll, ids: set<string>)
    requires ids != {} && ids <= Eligible(quizzes)
    ensures exists m :: m in ids && forall y :: y in ids && y != m ==> Precedes(quizzes, m, y)
    decreases |ids|
  {
    var x :| x in ids;
    var rest := ids - {x};
    if rest != {} {
      FirstExists(quizzes, rest);
      var m :| m in rest && forall y :: y in rest && y != m ==> Precedes(quizzes, m, y);
      PrecedesTotal(quizzes, x, m);
      if Precedes(quizzes, x, m) {
        forall y | y in ids && y != x
          ensures Precedes(quizzes, x, y)
        {
          if y != m {
            PrecedesTransitive(quizzes, x, m, y);
          }
        }
      } else {
        assert forall y :: y in ids && y != m ==> Precedes(quizzes, m, y);
      }
    } else {
      assert ids == {x};
    }
  }

  /** The first of a set of ordered quizzes; the order is total on distinct
      ids, so it is unique. */
  function First(quizzes: Coll, ids: set<string>): (m: string)
    requires ids != {} && ids <= Eligible(quizzes)
    ensures m in ids && forall y :: y in ids && y != m ==> Precedes(quizzes, m, y)
  {
    FirstExists(quizzes, ids);
    PrecedesAsymmetric(quizzes);
    var m :| m in ids && forall y :: y in ids && y != m ==> Precedes(quizzes, m, y);
    m
  }

  /** The first `n` ids of `ids` in the query's order. */
  function Top(quizzes: Coll, ids: set<string>, n: nat): (r: seq<string>)
    requires ids <= Eligible(quizzes)
    ensures |r| == if |ids| < n then |ids| else n
    ensures forall i :: 0 <= i < |r| ==> r[i] in ids
    ensures forall i, j :: 0 <= i < j < |r| ==> Precedes(quizzes, r[i], r[j])
    ensures forall i, y :: 0 <= i < |r| && y in ids && y !in r ==> Precedes(quizzes, r[i], y)
    decreases n
  {
    if n == 0 || ids == {} then []
    else
      var m := First(quizzes, ids);
      [m] + Top(quizzes, ids - {m}, n - 1)
  }

  /** The ids of the quizzes the query returns, in order. */
  function LatestIds(quizzes: Coll): (r: seq<string>)
    ensures |r| == if |Eligible(quizzes)| < Limit then |Eligible(quizzes)| else Limit
    ensures forall i :: 0 <= i < |r| ==> r[i] in quizzes && Stamped(quizzes[r[i]])
    ensures forall i, j :: 0 <= i < j < |r| ==> Precedes(quizzes, r[i], r[j])
    ensures forall i, id :: 0 <= i < |r| && id in Eligible(quizzes) && id !in r ==> Precedes(quizzes, r[i], id)
  {
    Top(quizzes, Eligible(quizzes), Limit)
  }

  /** The data of the quizzes the query returns, in order. */
  function ListQuizzes(quizzes: Coll): (r: seq<Doc>)
    ensures |r| == |LatestIds(quizzes)|
    ensures forall i :: 0 <= i < |r| ==> r[i] == quizzes[LatestIds(quizzes)[i]]
  {
    var ids := LatestIds(quizzes);
    seq(|ids|, i requires 0 <= i < |ids| => quizzes[ids[i]])
  }

  /** The listing holds at most ten quizzes, all of them when there are fewer,
      newest first; each is the stored data of a distinct quiz with a
      timestamp, and no quiz left out is newer than one returned. */
  lemma ListQuizzesSpec(quizzes: Coll)
    ensures var r, ids := ListQuizzes(quizzes), LatestIds(quizzes);
            && |r| == (if |Eligible(quizzes)| < Limit then |Eligible(quizzes)| else Limit)
            && (forall i :: 0 <= i < |r| ==> ids[i] in quizzes && r[i] == quizzes[ids[i]] && Stamped(r[i]))
            && (forall i, j :: 0 <= i < j < |r| ==> ids[i] != ids[j] && StampOf(r[i]) >= StampOf(r[j]))
            && (forall id :: id in quizzes && Stamped(quizzes[id]) && id !in ids ==>
                  forall i :: 0 <= i < |r| ==> StampOf(r[i]) >= StampOf(quizzes[id]))
  {
    var r, ids := ListQuizzes(quizzes), LatestIds(quizzes);
    forall i, j | 0 <= i < j < |r|
      ensures ids[i] != ids[j]
    {
      PrecedesAsymmetric(quizzes);
    }
  }

  /** The quizzes listed do not depend on those without a timestamp. */
  lemma ListingIgnoresUnstamped(quizzes: Coll, id: string, d: Doc)
    requires id !in quizzes && !Stamped(d)
    ensures ListQuizzes(quizzes[id := d]) == ListQuizzes(quizzes)
  {
    assert Eligible(quizzes[id := d]) == Eligible(quizzes);
    TopIgnoresUnstamped(quizzes, id, d, Eligible(quizzes), Limit);
  }

  lemma EligibleIgnoresUnstamped(quizzes: Coll, id: string, d: Doc)
    requires id !in quizzes && !Stamped(d)
    ensures Eligible(quizzes[id := d]) == Eligible(quizzes)
    ensures forall a, b :: Precedes(quizzes[id := d], a, b) == Precedes(quizzes, a, b)
  {
    var q' := quizzes[id := d];
    assert Eligible(q') == Eligible(quizzes);
    forall a, b
      ensures Precedes(q', a, b) == Precedes(quizzes, a, b)
    {
      if a in Eligible(quizzes) && b in Eligible(quizzes) {
        assert q'[a] == quizzes[a] && q'[b] == quizzes[b];
      }
    }
  }

  lemma FirstIgnoresUnstamped(quizzes: Coll, id: string, d: Doc, ids: set<string>)
    requires id !in quizzes && !Stamped(d)
    requires ids != {} && ids <= Eligible(quizzes)
    ensures ids <= Eligible(quizzes[id := d])
    ensures First(quizzes[id := d], ids) == First(quizzes, ids)
  {
    EligibleIgnoresUnstamped(quizzes, id, d);
    PrecedesAsymmetric(quizzes);
  }

  lemma {:induction false} TopIgnoresUnstamped(quizzes: Coll, id: string, d: Doc, ids: set<string>, n: nat)
    requires id !in quizzes && !Stamped(d)
    requires ids <= Eligible(quizzes)
    ensures ids <= Eligible(quizzes[id := d])
    ensures Top(quizzes[id := d], ids, n) == Top(quizzes, ids, n)
    decreases n
  {
    EligibleIgnoresUnstamped(quizzes, id, d);
    if n != 0 && ids != {} {
      FirstIgnoresUnstamped(quizzes, id, d, ids);
      TopIgnoresUnstamped(quizzes, id, d, ids - {First(quizzes, ids)}, n - 1);
    }
  }
}
