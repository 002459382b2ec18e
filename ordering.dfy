/**
 * LINQ's `OrderByDescending(p => p.Score)` on a list of players: a stable
 * sort, so players with equal scores keep the order they had in the input.
 */
module Ordering {
  import opened Models

  /** Scores never increase from left to right. */
  predicate Descending(ps: seq<Player>) {
    forall i, j :: 0 <= i < j < |ps| ==> ps[i].score >= ps[j].score
  }

  /** The players of `ps` whose score is `k`, in their order in `ps`. */
  function WithScore(ps: seq<Player>, k: int): (r: seq<Player>)
    ensures forall x :: x in r ==> x in ps && x.score == k
  {
    if ps == [] then [] else (if ps[0].score == k then [ps[0]] else []) + WithScore(ps[1..], k)
  }

  /**
   * `s` is a stable descending arrangement of `ps`: sorted by score, and for every
   * score the players holding it appear in `s` exactly as they appear in `ps`.
   */
  ghost predicate StableDescending(s: seq<Player>, ps: seq<Player>) {
    Descending(s) && forall k :: WithScore(s, k) == WithScore(ps, k)
  }

  lemma WithScoreCons(p: Player, s: seq<Player>, k: int)
    ensures WithScore([p] + s, k) == (if p.score == k then [p] else []) + WithScore(s, k)
  {
    assert ([p] + s)[1..] == s;
  }

  /** Places `p` before the first player whose score does not exceed its own. */
  function Insert(p: Player, s: seq<Player>): seq<Player> {
    if s == [] || p.score >= s[0].score then [p] + s else [s[0]] + Insert(p, s[1..])
  }

  /** Inserting adds exactly `p`. */
  lemma {:induction false} InsertAddsOne(p: Player, s: seq<Player>)
    ensures |Insert(p, s)| == |s| + 1 && multiset(Insert(p, s)) == multiset(s) + multiset{p}
  {
    if s != [] && p.score < s[0].score {
      InsertAddsOne(p, s[1..]);
      assert s == [s[0]] + s[1..];
    }
  }

  lemma DescendingCons(x: Player, r: seq<Player>)
    requires Descending(r)
    requires forall i :: 0 <= i < |r| ==> x.score >= r[i].score
    ensures Descending([x] + r)
  {
    forall i, j | 0 <= i < j < |r| + 1 ensures ([x] + r)[i].score >= ([x] + r)[j].score {
      if i > 0 {
        assert ([x] + r)[i] == r[i - 1];
      }
      assert ([x] + r)[j] == r[j - 1];
    }
  }

  /** Inserting into a descending list keeps it descending. */
  lemma {:induction false} InsertKeepsDescending(p: Player, s: seq<Player>)
    requires Descending(s)
    ensures Descending(Insert(p, s))
  {
    if s == [] || p.score >= s[0].score {
      DescendingCons(p, s);
    } else {
      var r := Insert(p, s[1..]);
      InsertKeepsDescending(p, s[1..]);
      InsertAddsOne(p, s[1..]);
      forall i | 0 <= i < |r| ensures s[0].score >= r[i].score {
        assert r[i] in multiset(r);
        assert r[i] == p || r[i] in multiset(s[1..]);
        if r[i] != p {
          var j :| 0 <= j < |s[1..]| && s[1..][j] == r[i];
          assert s[j + 1] == r[i];
        }
      }
      DescendingCons(s[0], r);
    }
  }

  /** Among players of one score, the inserted player comes first: it heads the input. */
  lemma {:induction false} InsertWithScore(p: Player, s: seq<Player>, k: int)
    ensures WithScore(Insert(p, s), k) == if p.score == k then [p] + WithScore(s, k) else WithScore(s, k)
  {
    if s == [] || p.score >= s[0].score {
      WithScoreCons(p, s, k);
    } else {
      InsertWithScore(p, s[1..], k);
      assert s == [s[0]] + s[1..];
      WithScoreCons(s[0], Insert(p, s[1..]), k);
      WithScoreCons(s[0], s[1..], k);
    }
  }

  /** The stable descending sort of `ps` by score. */
  function SortByScore(ps: seq<Player>): (r: seq<Player>)
    ensures |r| == |ps| && multiset(r) == multiset(ps)
    ensures StableDescending(r, ps)
  {
    if ps == [] then []
    else
      var rest := SortByScore(ps[1..]);
      InsertSorts(ps, rest);
      Insert(ps[0], rest)
  }

  /** Inserting the head into a stable descending arrangement of the tail arranges the whole list. */
  lemma InsertSorts(ps: seq<Player>, rest: seq<Player>)
    requires ps != [] && |rest| == |ps| - 1 && multiset(rest) == multiset(ps[1..])
    requires StableDescending(rest, ps[1..])
    ensures var r := Insert(ps[0], rest);
      |r| == |ps| && multiset(r) == multiset(ps) && StableDescending(r, ps)
  {
    var r := Insert(ps[0], rest);
    InsertAddsOne(ps[0], rest);
    InsertKeepsDescending(ps[0], rest);
    assert ps == [ps[0]] + ps[1..];
    forall k ensures WithScore(r, k) == WithScore(ps, k) {
      InsertWithScore(ps[0], rest, k);
      WithScoreCons(ps[0], ps[1..], k);
    }
  }

  /**
   * There is only one stable descending arrangement: two sorted lists that agree
   * on the players of every score are equal. So `SortByScore` is the order
   * `OrderByDescending` produces, whatever algorithm computes it.
   */
  lemma {:induction false} StableDescendingUnique(s: seq<Player>, t: seq<Player>)
    requires Descending(s) && Descending(t)
    requires forall k :: WithScore(s, k) == WithScore(t, k)
    ensures s == t
    decreases |s|
  {
    if s != [] && t != [] {
      SameHead(s, t);
      SameTails(s, t);
      StableDescendingUnique(s[1..], t[1..]);
    } else if s != [] {
      HeadHasItsScore(s);
      assert false;
    } else if t != [] {
      HeadHasItsScore(t);
      assert false;
    }
  }

  /** Both lists start with the first player of the top score. */
  lemma SameHead(s: seq<Player>, t: seq<Player>)
    requires s != [] && t != [] && Descending(s) && Descending(t)
    requires forall k :: WithScore(s, k) == WithScore(t, k)
    ensures s[0] == t[0]
  {
    TopScoreNoLower(s, t);
    TopScoreNoLower(t, s);
    var k := s[0].score;
    HeadOfWithScore(s);
    HeadOfWithScore(t);
    assert WithScore(s, k) == WithScore(t, k);
  }

  /** The first player of a list heads the players of its score. */
  lemma HeadOfWithScore(s: seq<Player>)
    requires s != []
    ensures WithScore(s, s[0].score) != [] && WithScore(s, s[0].score)[0] == s[0]
  {
    WithScoreCons(s[0], s[1..], s[0].score);
    assert s == [s[0]] + s[1..];
  }

  /** A descending list starts with a score at least that of any player the other list shares with it. */
  lemma TopScoreNoLower(s: seq<Player>, t: seq<Player>)
    requires s != [] && t != [] && Descending(t)
    requires forall k :: WithScore(s, k) == WithScore(t, k)
    ensures t[0].score >= s[0].score
  {
    HeadOfWithScore(s);
    var a := s[0];
    assert a in WithScore(t, a.score);
    var i :| 0 <= i < |t| && t[i] == a;
  }

  /** With the same head, the rests agree on the players of every score. */
  lemma SameTails(s: seq<Player>, t: seq<Player>)
    requires s != [] && t != [] && s[0] == t[0]
    requires forall k :: WithScore(s, k) == WithScore(t, k)
    ensures forall k :: WithScore(s[1..], k) == WithScore(t[1..], k)
  {
    var a := s[0];
    assert s == [a] + s[1..] && t == [a] + t[1..];
    forall k ensures WithScore(s[1..], k) == WithScore(t[1..], k) {
      WithScoreCons(a, s[1..], k);
      WithScoreCons(a, t[1..], k);
      assert WithScore(s, k) == WithScore(t, k);
      if a.score == k {
        assert WithScore(s[1..], k) == WithScore(s, k)[1..];
        assert WithScore(t[1..], k) == WithScore(t, k)[1..];
      } else {
        assert [] + WithScore(s[1..], k) == WithScore(s[1..], k);
        assert [] + WithScore(t[1..], k) == WithScore(t[1..], k);
      }
    }
  }

  lemma HeadHasItsScore(s: seq<Player>)
    requires s != []
    ensures WithScore(s, s[0].score) != []
  {
    WithScoreCons(s[0], s[1..], s[0].score);
    assert s == [s[0]] + s[1..];
  }
}
