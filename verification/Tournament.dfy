/** The knockout tournament of rock, paper and scissors. */
module Tournament {

  datatype Match = Match(first: nat, second: nat)

  /** What the players answer and who gets a walkover, as inputs: the `r`-th move of player
      `p` in round `t`, and the choice in round `t` among so many players. */
  datatype Input = Input(games: nat, move: (nat, nat, nat) -> char, walkOver: (nat, nat) -> nat)

  ghost predicate Legal(inp: Input) {
    forall t, total :: total > 0 ==> 1 <= inp.walkOver(t, total) <= total
  }

  // ---- one match ----

  /** Who gets the point for these moves: one for the first, the other for the second. */
  function Point(x: char, y: char): (int, int) {
    if x == y then (0, 0)
    else if x == '0' then if y == '1' then (0, 1) else (1, 0)
    else if x == '1' then if y == '2' then (0, 1) else (1, 0)
    else if x == '2' then if y == '0' then (0, 1) else (1, 0)
    else (0, 0)
  }

  function Score(inp: Input, t: nat, m: Match, r: nat): (s: (int, int))
    ensures s.0 >= 0 && s.1 >= 0 && s.0 + s.1 <= r
  {
    if r == 0 then (0, 0)
    else
      var (p1, p2) := Score(inp, t, m, r - 1);
      var (d1, d2) := Point(inp.move(t, m.first, r - 1), inp.move(t, m.second, r - 1));
      (p1 + d1, p2 + d2)
  }

  /** A draw is won by the first. */
  function Loser(inp: Input, t: nat, m: Match): nat {
    var (p1, p2) := Score(inp, t, m, inp.games);
    if p1 >= p2 then m.second else m.first
  }

  predicate IsMove(x: char) { x == '0' || x == '1' || x == '2' }

  /** Rock, paper, scissors, in the order in which each beats the one before. */
  function Rank(x: char): int { x as int - '0' as int }

  /** `x` comes next to `y` in the cycle. */
  predicate Beats(x: char, y: char) { IsMove(x) && IsMove(y) && Rank(x) == (Rank(y) + 1) % 3 }

  /** The first `r` games of round `t` in which `p`'s move beats `q`'s. */
  ghost function Wins(inp: Input, t: nat, p: nat, q: nat, r: nat): set<nat> {
    set k: nat | k < r && Beats(inp.move(t, p, k), inp.move(t, q, k))
  }

  /** The games that count for the first player: a legal move of its own that is not beaten and
      differs from the answer, legal or not. */
  ghost function Counted(inp: Input, t: nat, m: Match, r: nat): set<nat> {
    set k: nat | k < r && IsMove(inp.move(t, m.first, k)) && inp.move(t, m.first, k) != inp.move(t, m.second, k)
                 && !Beats(inp.move(t, m.second, k), inp.move(t, m.first, k))
  }

  /** As long as both make legal moves in the first `r` games. */
  ghost predicate Fair(inp: Input, t: nat, m: Match, r: nat) {
    forall k: nat :: k < r ==> IsMove(inp.move(t, m.first, k)) && IsMove(inp.move(t, m.second, k))
  }

  /** A legal move gets the point exactly when it comes next to the other one in the cycle; the
      first player also gets it when the other answers no legal move. */
  lemma PointIsFair(x: char, y: char)
    ensures Point(x, y) == (if IsMove(x) && x != y && !Beats(y, x) then 1 else 0, if Beats(y, x) then 1 else 0)
    ensures IsMove(x) && IsMove(y) ==> Point(x, y).0 == if Rank(x) == (Rank(y) + 1) % 3 then 1 else 0
    ensures IsMove(x) && IsMove(y) ==> (x != y && !Beats(y, x) <==> Beats(x, y))
    ensures IsMove(x) && IsMove(y) && x != y ==> Point(x, y).0 + Point(x, y).1 == 1
  {}

  lemma WinsNext(inp: Input, t: nat, p: nat, q: nat, r: nat)
    ensures Wins(inp, t, p, q, 0) == {}
    ensures |Wins(inp, t, p, q, r + 1)| ==
            |Wins(inp, t, p, q, r)| + if Beats(inp.move(t, p, r), inp.move(t, q, r)) then 1 else 0
  {
    hide Beats;
    assert Wins(inp, t, p, q, r + 1) ==
      if Beats(inp.move(t, p, r), inp.move(t, q, r)) then Wins(inp, t, p, q, r) + {r} else Wins(inp, t, p, q, r);
  }

  lemma CountedNext(inp: Input, t: nat, m: Match, r: nat)
    ensures Counted(inp, t, m, 0) == {}
    ensures var x, y := inp.move(t, m.first, r), inp.move(t, m.second, r);
            |Counted(inp, t, m, r + 1)| ==
            |Counted(inp, t, m, r)| + if IsMove(x) && x != y && !Beats(y, x) then 1 else 0
  {
    hide Beats, IsMove;
    var x, y := inp.move(t, m.first, r), inp.move(t, m.second, r);
    assert Counted(inp, t, m, r + 1) ==
      if IsMove(x) && x != y && !Beats(y, x) then Counted(inp, t, m, r) + {r} else Counted(inp, t, m, r);
  }

  /** The score is the number of those games, whatever the players answer. */
  lemma {:induction false} ScoreCounts(inp: Input, t: nat, m: Match, r: nat)
    ensures Score(inp, t, m, r) == (|Counted(inp, t, m, r)|, |Wins(inp, t, m.second, m.first, r)|)
  {
    hide Point, Beats, Wins, Counted;
    if r == 0 {
      WinsNext(inp, t, m.second, m.first, 0);
      CountedNext(inp, t, m, 0);
    } else {
      ScoreCounts(inp, t, m, r - 1);
      PointIsFair(inp.move(t, m.first, r - 1), inp.move(t, m.second, r - 1));
      WinsNext(inp, t, m.second, m.first, r - 1);
      CountedNext(inp, t, m, r - 1);
    }
  }

  /** As long as both make legal moves, it is the number of games that each has won, and the sides
      do not matter. */
  lemma ScoreIsFair(inp: Input, t: nat, m: Match, r: nat)
    requires Fair(inp, t, m, r)
    ensures Score(inp, t, m, r) == (|Wins(inp, t, m.first, m.second, r)|, |Wins(inp, t, m.second, m.first, r)|)
    ensures Score(inp, t, Match(m.second, m.first), r) == (Score(inp, t, m, r).1, Score(inp, t, m, r).0)
  {
    ScoreCounts(inp, t, m, r);
    ScoreCounts(inp, t, Match(m.second, m.first), r);
    FairCounted(inp, t, m, r);
    FairCounted(inp, t, Match(m.second, m.first), r);
    hide Score, Wins, Counted;
  }

  lemma FairCounted(inp: Input, t: nat, m: Match, r: nat)
    requires Fair(inp, t, m, r)
    ensures Counted(inp, t, m, r) == Wins(inp, t, m.first, m.second, r)
  {
    forall x, y
      ensures IsMove(x) && IsMove(y) ==> (x != y && !Beats(y, x) <==> Beats(x, y))
    {
      PointIsFair(x, y);
    }
    hide Beats;
  }

  /** The match takes out `p`: the second player if the first has at least as many points, and
      else the first. */
  ghost predicate TakesOut(inp: Input, t: nat, m: Match, p: nat) {
    var ahead := |Counted(inp, t, m, inp.games)| >= |Wins(inp, t, m.second, m.first, inp.games)|;
    p == if ahead then m.second else m.first
  }

  lemma LoserIs(inp: Input, t: nat, m: Match)
    ensures forall p: nat :: TakesOut(inp, t, m, p) <==> p == Loser(inp, t, m)
  {
    ScoreCounts(inp, t, m, inp.games);
    hide Score, Counted, Wins;
  }

  /** As long as both make legal moves, a match takes out the one that has won fewer games, or
      the second when both have won as many. */
  lemma FairlyOut(inp: Input, t: nat, m: Match, p: nat)
    requires Fair(inp, t, m, inp.games) && m.first != m.second
    ensures var w1, w2 := Wins(inp, t, m.first, m.second, inp.games), Wins(inp, t, m.second, m.first, inp.games);
            && (TakesOut(inp, t, m, p) <==> (p == m.first && |w1| < |w2|) || (p == m.second && |w2| <= |w1|))
            && w1 !! w2
  {
    FairCounted(inp, t, m, inp.games);
    hide Counted;
  }

  // ---- one round ----

  /** The active players, in order. */
  function Players(active: seq<bool>): (ps: seq<nat>)
    ensures |ps| <= |active|
  {
    if active == [] then []
    else
      var n := |active| - 1;
      if active[n] then Players(active[..n]) + [n] else Players(active[..n])
  }

  /** `ps` lists the active players but `out`, in order. */
  ghost predicate Lists(active: seq<bool>, ps: seq<nat>, out: nat) {
    && (forall i, j :: 0 <= i < j < |ps| ==> ps[i] < ps[j])
    && (forall i :: 0 <= i < |ps| ==> ps[i] < |active| && active[ps[i]] && ps[i] != out)
    && (forall p :: 0 <= p < |active| && active[p] && p != out ==> p in ps)
  }

  lemma {:induction false} PlayersAre(active: seq<bool>)
    ensures Lists(active, Players(active), |active|)
  {
    if active != [] {
      var n := |active| - 1;
      PlayersAre(active[..n]);
      ListsMore(active, Players(active[..n]));
      assert active[n] ==> Players(active) == Players(active[..n]) + [n];
      assert !active[n] ==> Players(active) == Players(active[..n]);
    }
  }

  lemma ListsMore(active: seq<bool>, ps: seq<nat>)
    requires active != [] && Lists(active[..|active| - 1], ps, |active| - 1)
    ensures Lists(active, if active[|active| - 1] then ps + [|active| - 1] else ps, |active|)
  {
    var n := |active| - 1;
    var qs := if active[n] then ps + [n] else ps;
    assert forall i :: 0 <= i < |ps| ==> qs[i] == ps[i] && active[..n][ps[i]];
    forall p | 0 <= p < |active| && active[p]
      ensures p in qs
    {
      if p < n {
        assert active[..n][p];
        assert p in ps;
      } else {
        assert qs[|ps|] == n;
      }
    }
  }

  /** All of them but the one at `skip`. */
  function Seated(ps: seq<nat>, skip: nat): seq<nat> {
    if skip < |ps| then ps[..skip] + ps[skip + 1..] else ps
  }

  function Pairs(seats: seq<nat>): (ms: seq<Match>)
    ensures |ms| == |seats| / 2
  {
    seq(|seats| / 2, i requires 0 <= i < |seats| / 2 => Match(seats[2 * i], seats[2 * i + 1]))
  }

  /** The place in the list of active players that gets the walkover; none in an even round. */
  function Skip(inp: Input, t: nat, total: nat): nat
    requires Legal(inp)
  {
    if total % 2 == 1 then inp.walkOver(t, total) - 1 else total
  }

  function Matches(inp: Input, t: nat, active: seq<bool>): seq<Match>
    requires Legal(inp)
  {
    var ps := Players(active);
    Pairs(Seated(ps, Skip(inp, t, |ps|)))
  }

  /** Who is still in after these matches. */
  ghost function Winners(inp: Input, t: nat, active: seq<bool>, ms: seq<Match>): (out: seq<bool>)
    ensures |out| == |active|
  {
    seq(|active|, p requires 0 <= p < |active| =>
      active[p] && forall m :: m in ms ==> !TakesOut(inp, t, m, p))
  }

  predicate Plays(m: Match, p: nat) { m.first == p || m.second == p }

  /** `p` is active and has no walkover. */
  predicate InPlay(active: seq<bool>, p: nat, out: nat) { p < |active| && active[p] && p != out }

  /** Nobody but active players other than `out` plays, and nobody plays twice. */
  ghost predicate OnceEach(active: seq<bool>, ms: seq<Match>, out: nat) {
    && (forall k :: 0 <= k < |ms| ==> ms[k].first < ms[k].second < |active|)
    && (forall k, p: nat :: 0 <= k < |ms| && Plays(ms[k], p) ==> InPlay(active, p, out))
    && (forall k, l, p: nat :: 0 <= k < |ms| && 0 <= l < |ms| && Plays(ms[k], p) && Plays(ms[l], p) ==> k == l)
  }

  /** The matches go up, and nobody who is in play sits between the two of a match. */
  ghost predicate InOrder(active: seq<bool>, ms: seq<Match>, out: nat) {
    && (forall k, l :: 0 <= k < l < |ms| ==> ms[k].second < ms[l].first)
    && (forall k, p: nat :: 0 <= k < |ms| && ms[k].first < p < ms[k].second ==> !InPlay(active, p, out))
  }

  /** `ms` pairs every active player but `out` exactly once, and nobody else, each with the next. */
  ghost predicate Pairing(active: seq<bool>, ms: seq<Match>, out: nat) {
    && OnceEach(active, ms, out) && InOrder(active, ms, out)
    && (forall p :: 0 <= p < |active| && active[p] && p != out ==> exists k :: 0 <= k < |ms| && Plays(ms[k], p))
  }

  /** The player with the walkover, or a number that is no player. */
  function WalkOver(inp: Input, t: nat, active: seq<bool>): nat
    requires Legal(inp)
  {
    var ps := Players(active);
    var skip := Skip(inp, t, |ps|);
    if skip < |ps| then ps[skip] else |active|
  }

  lemma SeatedAre(active: seq<bool>, ps: seq<nat>, skip: nat)
    requires Lists(active, ps, |active|) && skip < |ps|
    ensures Lists(active, Seated(ps, skip), ps[skip]) && ps[skip] < |active|
  {
    var seats := Seated(ps, skip);
    assert forall i :: 0 <= i < |seats| ==> seats[i] == ps[if i < skip then i else i + 1];
    forall p | 0 <= p < |active| && active[p] && p != ps[skip]
      ensures p in seats
    {
      var k :| 0 <= k < |ps| && ps[k] == p;
      SeatKept(ps, skip, k);
    }
  }

  lemma SeatKept(ps: seq<nat>, skip: nat, k: nat)
    requires skip < |ps| && k < |ps| && k != skip
    ensures ps[k] in Seated(ps, skip)
  {
    assert Seated(ps, skip)[if k < skip then k else k - 1] == ps[k];
  }

  /** Where a player of the `k`-th pair sits. */
  lemma SeatOf(active: seq<bool>, seats: seq<nat>, out: nat, k: nat, p: nat) returns (i: nat)
    requires Lists(active, seats, out) && k < |Pairs(seats)| && Plays(Pairs(seats)[k], p)
    ensures i < |seats| && i / 2 == k && seats[i] == p && InPlay(active, p, out)
  {
    i := if seats[2 * k] == p then 2 * k else 2 * k + 1;
  }

  lemma SameSeat(active: seq<bool>, seats: seq<nat>, out: nat, i: nat, j: nat)
    requires Lists(active, seats, out) && i < |seats| && j < |seats| && seats[i] == seats[j]
    ensures i == j
  {}

  lemma PairsOrdered(active: seq<bool>, seats: seq<nat>, out: nat, k: nat)
    requires Lists(active, seats, out) && k < |Pairs(seats)|
    ensures Pairs(seats)[k].first < Pairs(seats)[k].second < |active|
  {
    assert seats[2 * k] < seats[2 * k + 1] < |active|;
  }

  lemma PairsPair(active: seq<bool>, seats: seq<nat>, out: nat)
    requires Lists(active, seats, out) && |seats| % 2 == 0
    ensures Pairing(active, Pairs(seats), out)
  {
    PairsOnce(active, seats, out);
    PairsInOrder(active, seats, out);
    hide OnceEach, InOrder, Lists, Pairs, Plays;
    forall p | 0 <= p < |active| && active[p] && p != out
      ensures exists k :: 0 <= k < |Pairs(seats)| && Plays(Pairs(seats)[k], p)
    {
      var k := PairOf(active, seats, out, p);
      assert Plays(Pairs(seats)[k], p);
    }
  }

  lemma PairsInOrder(active: seq<bool>, seats: seq<nat>, out: nat)
    requires Lists(active, seats, out) && |seats| % 2 == 0
    ensures InOrder(active, Pairs(seats), out)
  {
    var ms := Pairs(seats);
    forall k, i | 0 <= k < |ms| && 0 <= i < |seats|
      ensures seats[i] <= ms[k].first || ms[k].second <= seats[i]
    {
      assert i <= 2 * k || i >= 2 * k + 1;
    }
  }

  /** Which pair an active player is in. */
  lemma PairOf(active: seq<bool>, seats: seq<nat>, out: nat, p: nat) returns (k: nat)
    requires Lists(active, seats, out) && |seats| % 2 == 0 && p < |active| && active[p] && p != out
    ensures k < |Pairs(seats)| && Plays(Pairs(seats)[k], p)
  {
    var i :| 0 <= i < |seats| && seats[i] == p;
    k := i / 2;
    PairAt(seats, k);
  }

  lemma PairsOnce(active: seq<bool>, seats: seq<nat>, out: nat)
    requires Lists(active, seats, out)
    ensures OnceEach(active, Pairs(seats), out)
  {
    var ms := Pairs(seats);
    hide *;
    forall k: nat | k < |ms|
      ensures ms[k].first < ms[k].second < |active|
    {
      PairsOrdered(active, seats, out, k);
    }
    forall k: nat, p: nat | k < |ms| && Plays(ms[k], p)
      ensures InPlay(active, p, out)
    {
      var _ := SeatOf(active, seats, out, k, p);
    }
    forall k: nat, l: nat, p: nat | k < |ms| && l < |ms| && Plays(ms[k], p) && Plays(ms[l], p)
      ensures k == l
    {
      PairsApart(active, seats, out, k, l, p);
    }
    IsOnceEach(active, ms, out);
  }

  lemma IsOnceEach(active: seq<bool>, ms: seq<Match>, out: nat)
    requires forall k: nat :: k < |ms| ==> ms[k].first < ms[k].second < |active|
    requires forall k: nat, p: nat :: k < |ms| && Plays(ms[k], p) ==> InPlay(active, p, out)
    requires forall k: nat, l: nat, p: nat ::
               k < |ms| && l < |ms| && Plays(ms[k], p) && Plays(ms[l], p) ==> k == l
    ensures OnceEach(active, ms, out)
  {}

  lemma PairsApart(active: seq<bool>, seats: seq<nat>, out: nat, k: nat, l: nat, p: nat)
    requires Lists(active, seats, out) && k < |Pairs(seats)| && l < |Pairs(seats)|
    requires Plays(Pairs(seats)[k], p) && Plays(Pairs(seats)[l], p)
    ensures k == l
  {
    hide Lists, Pairs, Plays;
    var i := SeatOf(active, seats, out, k, p);
    var j := SeatOf(active, seats, out, l, p);
    SameSeat(active, seats, out, i, j);
  }

  /** In each round every active player but the walkover plays exactly once. */
  lemma MatchesPair(inp: Input, t: nat, active: seq<bool>)
    requires Legal(inp)
    ensures Pairing(active, Matches(inp, t, active), WalkOver(inp, t, active))
    ensures WalkOver(inp, t, active) < |active| <==> |Players(active)| % 2 == 1
    ensures var n := |Players(active)|;
            n % 2 == 1 ==> WalkOver(inp, t, active) == Players(active)[inp.walkOver(t, n) - 1]
    ensures |Matches(inp, t, active)| == |Players(active)| / 2
  {
    hide Players, Lists, Pairing, Pairs, Legal;
    var ps := Players(active);
    var skip := Skip(inp, t, |ps|);
    PlayersAre(active);
    LegalSkip(inp, t, |ps|);
    if skip < |ps| {
      SeatedAre(active, ps, skip);
    }
    var seats := Seated(ps, skip);
    PairsPair(active, seats, WalkOver(inp, t, active));
  }

  lemma LegalSkip(inp: Input, t: nat, total: nat)
    requires Legal(inp)
    ensures Skip(inp, t, total) < total <==> total % 2 == 1
  {}

  lemma {:induction false} PlayersWithout(active: seq<bool>, q: nat)
    requires q < |active| && active[q]
    ensures |Players(active[q := false])| == |Players(active)| - 1
  {
    var n := |active| - 1;
    if q == n {
      assert active[q := false][..n] == active[..n];
    } else {
      PlayersWithout(active[..n], q);
      assert active[q := false][..n] == active[..n][q := false];
    }
  }

  /** The winners after one more match. */
  lemma WinnersNext(inp: Input, t: nat, active: seq<bool>, ms: seq<Match>, k: nat, out: nat)
    requires k < |ms| && OnceEach(active, ms, out)
    ensures var q, before := Loser(inp, t, ms[k]), Winners(inp, t, active, ms[..k]);
            q < |active| && before[q] && Winners(inp, t, active, ms[..k + 1]) == before[q := false]
  {
    var q, before := Loser(inp, t, ms[k]), Winners(inp, t, active, ms[..k]);
    LoserIs(inp, t, ms[k]);
    assert Plays(ms[k], q) && InPlay(active, q, out);
    forall m | m in ms[..k]
      ensures !TakesOut(inp, t, m, q)
    {
      var l :| 0 <= l < k && ms[l] == m;
      LoserIs(inp, t, m);
      assert Plays(ms[l], Loser(inp, t, m));
    }
    assert ms[..k + 1] == ms[..k] + [ms[k]];
    hide Loser, TakesOut;
    assert before[q] && ms[k] in ms[..k + 1];
    assert Winners(inp, t, active, ms[..k + 1]) == before[q := false];
  }

  lemma NoMatchYet(inp: Input, t: nat, active: seq<bool>)
    ensures Winners(inp, t, active, []) == active
  {}

  /** Every match takes out one player. */
  lemma {:induction false} WinnersCount(inp: Input, t: nat, active: seq<bool>, ms: seq<Match>, k: nat, out: nat)
    requires k <= |ms| && OnceEach(active, ms, out)
    ensures |Players(Winners(inp, t, active, ms[..k]))| == |Players(active)| - k
  {
    hide Winners, Loser, TakesOut, Players, OnceEach;
    if k == 0 {
      NoMatchYet(inp, t, active);
      assert ms[..0] == [];
    } else {
      WinnersCount(inp, t, active, ms, k - 1, out);
      WinnersNext(inp, t, active, ms, k - 1, out);
      PlayersWithout(Winners(inp, t, active, ms[..k - 1]), Loser(inp, t, ms[k - 1]));
    }
  }

  // ---- the whole tournament ----

  /** `log` holds the matches of one round after the other, from round `t` on. */
  ghost predicate Played(inp: Input, t: nat, start: seq<bool>, log: seq<seq<Match>>, end: seq<bool>)
    requires Legal(inp)
    decreases |log|
  {
    if log == [] then start == end
    else
      && Pairing(start, log[0], WalkOver(inp, t, start))
      && Played(inp, t + 1, Winners(inp, t, start, log[0]), log[1..], end)
  }

  lemma {:induction false} PlayedMore(inp: Input, t: nat, start: seq<bool>, log: seq<seq<Match>>, mid: seq<bool>,
      ms: seq<Match>)
    requires Legal(inp) && Played(inp, t, start, log, mid)
    requires Pairing(mid, ms, WalkOver(inp, t + |log|, mid))
    ensures Played(inp, t, start, log + [ms], Winners(inp, t + |log|, mid, ms))
    decreases |log|
  {
    hide Pairing, Winners, Legal, WalkOver;
    if log == [] {
      assert (log + [ms])[1..] == [] && (log + [ms])[0] == ms;
    } else {
      PlayedMore(inp, t + 1, Winners(inp, t, start, log[0]), log[1..], mid, ms);
      assert (log + [ms])[1..] == log[1..] + [ms] && (log + [ms])[0] == log[0];
    }
  }

  function Pow2(k: nat): nat { if k == 0 then 1 else 2 * Pow2(k - 1) }

  function Total(log: seq<seq<Match>>): nat { if log == [] then 0 else Total(log[..|log| - 1]) + |log[|log| - 1]| }

  lemma TimesUp(a: int, b: int, w: nat)
    requires a <= b
    ensures a * w <= b * w
  {}

  lemma Twice(a: int, w: nat)
    ensures a * (2 * w) == (2 * a) * w
  {}

  /** `rounds` roundings up of a half lead from `n` to `total`. */
  ghost predicate Halved(n: nat, total: nat, rounds: nat) {
    && (total - 1) * Pow2(rounds) < n <= total * Pow2(rounds)
    && (total == 1 && rounds > 0 ==> Pow2(rounds - 1) < n)
  }

  lemma Halve(n: nat, total: nat, rounds: nat)
    requires total > 1 && Halved(n, total, rounds)
    ensures Halved(n, (total + 1) / 2, rounds + 1)
  {
    var next, w := (total + 1) / 2, Pow2(rounds);
    TimesUp(2 * (next - 1), total - 1, w);
    TimesUp(total, 2 * next, w);
    TimesUp(1, total - 1, w);
    Twice(next - 1, w);
    Twice(next, w);
    assert Pow2(rounds + 1) == 2 * w;
    hide Pow2;
  }

  lemma HalvedOnce(n: nat, rounds: nat)
    ensures n > 0 ==> Halved(n, n, 0)
    ensures Halved(n, 1, rounds) ==> n <= Pow2(rounds) && (rounds > 0 ==> Pow2(rounds - 1) < n)
  {}

  /** One match: `GO` to both, as often as there are games. */
  method PlayMatch(inp: Input, t: nat, m: Match) returns (firstWins: bool)
    ensures Loser(inp, t, m) == if firstWins then m.second else m.first
    ensures TakesOut(inp, t, m, if firstWins then m.second else m.first)
    ensures Fair(inp, t, m, inp.games) ==>
              (firstWins <==> |Wins(inp, t, m.first, m.second, inp.games)| >=
                              |Wins(inp, t, m.second, m.first, inp.games)|)
  {
    LoserIs(inp, t, m);
    if Fair(inp, t, m, inp.games) {
      ScoreIsFair(inp, t, m, inp.games);
    }
    hide TakesOut, Wins, Counted, Fair;
    var p1, p2 := 0, 0;
    var r := 0;
    while r < inp.games
      invariant r <= inp.games && (p1, p2) == Score(inp, t, m, r)
    {
      var x, y := inp.move(t, m.first, r), inp.move(t, m.second, r);
      r := r + 1;
      if x == y { continue; }
      if x == '0' {
        if y == '1' { p2 := p2 + 1; } else { p1 := p1 + 1; }
      }
      if x == '1' {
        if y == '2' { p2 := p2 + 1; } else { p1 := p1 + 1; }
      }
      if x == '2' {
        if y == '0' { p2 := p2 + 1; } else { p1 := p1 + 1; }
      }
    }
    firstWins := p1 >= p2;
  }

  /** Writes the active players but the one at `skip` into `a`. */
  method Gather(active: array<bool>, skip0: nat, a: array<nat>)
    requires a.Length == |Seated(Players(active[..]), skip0)|
    requires skip0 <= active.Length
    modifies a
    ensures a[..] == Seated(Players(active[..]), skip0)
  {
    var n := active.Length;
    var skip, k, i := skip0, 0, 0;
    ghost var was := active[..];
    GatherEnds(was, skip0);
    hide *;
    while i < n
      invariant 0 <= i <= n
      invariant skip == (if skip0 < Seen(was, i) then n + 1 else skip0)
      invariant k == |Gathered(was, i, skip0)| <= a.Length && a[..k] == Gathered(was, i, skip0)
    {
      GatherNext(was, i, skip0);
      if active[i] {
        if skip == k {
          skip := n + 1;
        } else {
          PutAt(a, k, i);
          k := k + 1;
        }
      }
      i := i + 1;
    }
    assert a[..k] == a[..];
  }

  method PutAt(a: array<nat>, k: nat, p: nat)
    requires k < a.Length
    modifies a
    ensures a[..k + 1] == old(a[..k]) + [p]
  {
    a[k] := p;
  }

  /** The seats taken by the first `i` players, and how many of those are active. */
  ghost function Gathered(active: seq<bool>, i: nat, skip: nat): seq<nat>
    requires i <= |active|
  {
    Seated(Players(active[..i]), skip)
  }

  ghost function Seen(active: seq<bool>, i: nat): nat
    requires i <= |active|
  {
    |Players(active[..i])|
  }

  lemma GatherEnds(active: seq<bool>, skip: nat)
    ensures Seen(active, 0) == 0 && Gathered(active, 0, skip) == []
    ensures Gathered(active, |active|, skip) == Seated(Players(active), skip)
  {
    assert active[..|active|] == active;
  }

  /** What the next player adds. */
  lemma GatherNext(active: seq<bool>, i: nat, skip: nat)
    requires i < |active|
    ensures var seen, seats := Seen(active, i), Gathered(active, i, skip);
            && seen <= i && |seats| == (if skip < seen then seen - 1 else seen)
            && Seen(active, i + 1) == (if active[i] then seen + 1 else seen)
            && Gathered(active, i + 1, skip) == (if active[i] && skip != seen then seats + [i] else seats)
            && |Gathered(active, i + 1, skip)| <= |Seated(Players(active), skip)|
  {
    hide Seated, Players;
    PlayersNext(active, i);
    SeatedNext(Players(active[..i]), i, skip);
    SeatedGrow(active, i + 1, skip);
  }

  lemma PlayersNext(active: seq<bool>, i: nat)
    requires i < |active|
    ensures |Players(active[..i])| <= i
    ensures Players(active[..i + 1]) == if active[i] then Players(active[..i]) + [i] else Players(active[..i])
  {
    assert active[..i + 1][..i] == active[..i];
  }

  lemma SeatedNext(ps: seq<nat>, p: nat, skip: nat)
    ensures Seated(ps + [p], skip) == if skip != |ps| then Seated(ps, skip) + [p] else Seated(ps, skip)
    ensures |Seated(ps, skip)| == if skip < |ps| then |ps| - 1 else |ps|
  {}

  lemma SeatedGrow(active: seq<bool>, i: nat, skip: nat)
    requires i <= |active|
    ensures |Seated(Players(active[..i]), skip)| <= |Seated(Players(active), skip)|
  {
    PlayersGrow(active, i);
    hide Players;
  }

  lemma {:induction false} PlayersGrow(active: seq<bool>, i: nat)
    requires i <= |active|
    ensures |Players(active[..i])| <= |Players(active)|
    decreases |active| - i
  {
    if i < |active| {
      PlayersGrow(active, i + 1);
      assert active[..i + 1][..i] == active[..i];
    } else {
      assert active[..i] == active;
    }
  }

  /** The seats and the matches of a round. */
  lemma Seating(inp: Input, t: nat, active: seq<bool>, skip: nat)
    requires Legal(inp)
    requires skip == if |Players(active)| % 2 == 1 then inp.walkOver(t, |Players(active)|) - 1 else |active|
    ensures var ms := Matches(inp, t, active);
            && Pairs(Seated(Players(active), skip)) == ms && |Seated(Players(active), skip)| == 2 * |ms|
            && |ms| == |Players(active)| / 2
            && OnceEach(active, ms, WalkOver(inp, t, active))
  {
    MatchesPair(inp, t, active);
    assert Seated(Players(active), skip) == Seated(Players(active), Skip(inp, t, |Players(active)|));
    hide Players, OnceEach, Pairs;
  }

  lemma PairAt(seats: seq<nat>, k: nat)
    requires 2 * k + 1 < |seats|
    ensures k < |Pairs(seats)| && Pairs(seats)[k] == Match(seats[2 * k], seats[2 * k + 1])
  {}

  /** One pass of the round loop. */
  method PlayRound(inp: Input, t: nat, active: array<bool>, total: nat)
    requires Legal(inp) && total == |Players(active[..])| > 1
    modifies active
    ensures active[..] == Winners(inp, t, old(active[..]), Matches(inp, t, old(active[..])))
  {
    ghost var was := active[..];
    var till, skip := total, active.Length;
    if total % 2 != 0 {
      skip := inp.walkOver(t, total) - 1;
      till := total - 1;
    }
    Seating(inp, t, was, skip);
    hide *;
    var a := new nat[till];
    Gather(active, skip, a);
    PlayMatches(inp, t, active, a);
  }

  /** The matches of a round, in the order of the seats. */
  method PlayMatches(inp: Input, t: nat, active: array<bool>, a: array<nat>)
    requires Legal(inp) && a.Length % 2 == 0
    requires OnceEach(active[..], Pairs(a[..]), WalkOver(inp, t, active[..]))
    modifies active
    ensures active[..] == Winners(inp, t, old(active[..]), Pairs(a[..]))
  {
    ghost var was, ms := active[..], Pairs(a[..]);
    NoMatchYet(inp, t, was);
    assert ms[..|ms|] == ms && ms[..0] == [];
    hide *;
    var i := 0;
    ghost var k := 0;
    while i < a.Length
      invariant 0 <= k <= |ms| && i == 2 * k
      invariant active[..] == Winners(inp, t, was, ms[..k])
      modifies active
    {
      PairAt(a[..], k);
      var m := Match(a[i], a[i + 1]);
      Eliminate(inp, t, active, m, was, ms, k);
      i, k := i + 2, k + 1;
    }
  }

  /** A match, and its loser out. */
  method Eliminate(inp: Input, t: nat, active: array<bool>, m: Match, ghost was: seq<bool>, ghost ms: seq<Match>,
      ghost k: nat)
    requires Legal(inp) && k < |ms| && OnceEach(was, ms, WalkOver(inp, t, was)) && m == ms[k]
    requires active[..] == Winners(inp, t, was, ms[..k])
    modifies active
    ensures active[..] == Winners(inp, t, was, ms[..k + 1])
  {
    WinnersNext(inp, t, was, ms, k, WalkOver(inp, t, was));
    hide Winners, OnceEach, WalkOver, Loser;
    var firstWins := PlayMatch(inp, t, m);
    if firstWins {
      active[m.second] := false;
    } else {
      active[m.first] := false;
    }
  }

  /** After a round: who is left, and the log. */
  lemma RoundDone(inp: Input, start: seq<bool>, log: seq<seq<Match>>, mid: seq<bool>)
    requires Legal(inp) && Played(inp, 0, start, log, mid)
    ensures var ms := Matches(inp, |log|, mid);
            && |Players(Winners(inp, |log|, mid, ms))| == (|Players(mid)| + 1) / 2
            && Played(inp, 0, start, log + [ms], Winners(inp, |log|, mid, ms))
            && Total(log + [ms]) == Total(log) + |Players(mid)| / 2
  {
    hide Players, Matches, Winners, Played, OnceEach, WalkOver, Legal;
    var ms, out := Matches(inp, |log|, mid), WalkOver(inp, |log|, mid);
    MatchesPair(inp, |log|, mid);
    WinnersCount(inp, |log|, mid, ms, |ms|, out);
    assert ms[..|ms|] == ms && (log + [ms])[..|log|] == log;
    PlayedMore(inp, 0, start, log, mid, ms);
  }

  /** Where a single player is left. */
  lemma OneLeft(active: seq<bool>) returns (w: nat)
    requires |Players(active)| == 1
    ensures w < |active| && active == seq(|active|, p => p == w)
  {
    PlayersAre(active);
    w := Players(active)[0];
  }

  /** The tournament.  It takes as many rounds as the base-2 logarithm of the number of players
      rounded up, and one match less than there are players, and leaves one winner. */
  method Play(inp: Input, n: nat) returns (winner: nat, rounds: nat, ghost log: seq<seq<Match>>)
    requires Legal(inp) && n >= 1
    ensures winner < n && Played(inp, 0, seq(n, _ => true), log, seq(n, p => p == winner))
    ensures |log| == rounds && Total(log) == n - 1
    ensures n <= Pow2(rounds) && (rounds > 0 ==> Pow2(rounds - 1) < n)
  {
    var active := new bool[n](_ => true);
    AllPlay(n);
    ghost var start := seq(n, _ => true);
    assert active[..] == start;
    HalvedOnce(n, 0);
    assert Total([]) == 0 && Played(inp, 0, start, [], start);
    hide Players, Matches, Winners, Played, Legal, Pow2, Total, Halved;
    var total := n;
    rounds, log := 0, [];
    while total != 1
      invariant 1 <= total == |Players(active[..])| <= n
      invariant Played(inp, 0, start, log, active[..]) && |log| == rounds && Total(log) == n - total
      invariant Halved(n, total, rounds)
    {
      RoundDone(inp, start, log, active[..]);
      Halve(n, total, rounds);
      log := log + [Matches(inp, rounds, active[..])];
      PlayRound(inp, rounds, active, total);
      total := (total + 1) / 2;
      rounds := rounds + 1;
    }
    HalvedOnce(n, rounds);
    winner := Survivor(active);
  }

  /** The one player that is still in. */
  method Survivor(active: array<bool>) returns (winner: nat)
    requires |Players(active[..])| == 1
    ensures winner < active.Length && active[..] == seq(active.Length, p => p == winner)
  {
    ghost var w := OneLeft(active[..]);
    assert active[w] == active[..][w];
    winner := 0;
    while !active[winner]
      invariant winner <= w
      decreases w - winner
    {
      winner := winner + 1;
    }
    assert active[..][winner] == active[winner];
  }

  lemma {:induction false} AllPlay(n: nat)
    ensures |Players(seq(n, _ => true))| == n
  {
    if n > 0 {
      AllPlay(n - 1);
      assert seq(n, _ => true)[..n - 1] == seq(n - 1, _ => true);
    }
  }
}
