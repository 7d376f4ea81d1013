/** The match orchestrator of connectfourgame.py (ConnectFourMatch.play): up to
    ROWS * COLUMNS plies, white first, each ply a propose_move on the mover and
    then the rewards the board's verdict calls for. The players are abstract
    strategies and every call made on them is recorded as an event. */
module Match {
  import opened Wrappers
  import opened Grids
  import opened ConnectFour

  /** The reward constants. */
  const RewardDraw: int := 0
  const RewardLegalMove: int := 0
  const RewardIllegalMove: int := -2
  const RewardLoss: int := -1
  const RewardWin: int := 1

  /** max_number_of_moves: one ply per cell. */
  const MaxMoves: int := Rows * Columns

  /** The two player slots: player_white moves first, player_red second. */
  datatype Side = WhiteSide | RedSide

  function Colour(s: Side): (x: Cell)
    ensures x != Empty
  {
    if s == WhiteSide then White else Red
  }

  function Other(s: Side): (o: Side)
    ensures o != s
  {
    if s == WhiteSide then RedSide else WhiteSide
  }

  /** players[move_number % 2]: white on even plies, red on odd ones. */
  function Mover(ply: int): Side {
    if ply % 2 == 0 then WhiteSide else RedSide
  }

  lemma MoverNext(ply: int)
    ensures Mover(ply + 1) == Other(Mover(ply))
  {
  }

  /** One call on a player: propose_move with the colour passed and the column it
      returned, or receive_reward with the reward. */
  datatype Event = Propose(side: Side, colour: Cell, column: int) | Receive(side: Side, reward: int)

  /** A player: the column it proposes, given the board, its colour and the calls
      made so far this game. A player object only sees the calls made on it, so its
      choice is a strategy that ignores the other player's calls; the properties
      below hold for every strategy, those included. */
  type Strategy = (Board, Cell, seq<Event>) -> int

  /** AsWritten rewards the other player whatever the ply; FirstPlyGuarded rewards
      it only once it has moved, that is from ply 1 on. */
  datatype Rules = AsWritten | FirstPlyGuarded

  /** How the game stopped: an IndexError escaping play, an illegal move, a win,
      or the last ply played without a winner. */
  datatype Ending = Crash(side: Side) | Illegal(side: Side) | Win(side: Side) | Draw

  /** The calls made, the final board, the last ply played and how it ended. */
  datatype Outcome = Outcome(trace: seq<Event>, board: Board, ply: nat, ending: Ending)

  /** The calls made on player s, in order. */
  function Seen(t: seq<Event>, s: Side): (h: seq<Event>)
    ensures |h| <= |t|
    ensures forall i :: 0 <= i < |h| ==> h[i].side == s
  {
    if t == [] then [] else Seen(t[..|t| - 1], s) + (if t[|t| - 1].side == s then [t[|t| - 1]] else [])
  }

  /** The propose_move calls, in order. */
  function Proposals(t: seq<Event>): (p: seq<Event>)
    ensures |p| <= |t|
    ensures forall i :: 0 <= i < |p| ==> p[i].Propose?
  {
    if t == [] then [] else Proposals(t[..|t| - 1]) + (if t[|t| - 1].Propose? then [t[|t| - 1]] else [])
  }

  predicate OtherRewarded(rules: Rules, ply: int) {
    rules == AsWritten || ply > 0
  }

  /** The closing rewards of a ply: the mover's, then the other player's. */
  function Rewards(rules: Rules, ply: int, mover: Side, own: int, others: int): seq<Event> {
    [Receive(mover, own)] + if OtherRewarded(rules, ply) then [Receive(Other(mover), others)] else []
  }

  /** The column the mover at ply proposes. */
  function Move(white: Strategy, red: Strategy, b: Board, ply: nat, t: seq<Event>): int {
    var s := Mover(ply);
    (if s == WhiteSide then white else red)(b, Colour(s), t)
  }

  /** The other player's REWARD_LEGAL_MOVE after a ply that lets the game go on,
      where the rules pay it. */
  function Deferred(rules: Rules, s: Side, ply: nat): seq<Event> {
    if OtherRewarded(rules, ply) then [Receive(Other(s), RewardLegalMove)] else []
  }

  /** What one ply leads to: the game stops with an outcome, or goes on to the
      next ply on a new board after the calls made so far. */
  datatype Step = Stop(outcome: Outcome) | Go(board: Board, trace: seq<Event>)

  /** Ply ply of the game on board b after the calls t: the mover's proposal, then
      what the verdict of its drop calls for. */
  function PlyStep(rules: Rules, white: Strategy, red: Strategy, b: Board, ply: nat, t: seq<Event>): (st: Step)
    requires ValidBoard(b) && ply < MaxMoves
    ensures st.Stop? ==> |st.outcome.trace| > |t| && st.outcome.ply == ply
                         && (st.outcome.ending == Draw ==> ply == MaxMoves - 1)
    ensures st.Go? ==> ValidBoard(st.board) && ply < MaxMoves - 1 && |st.trace| > |t|
  {
    var s := Mover(ply);
    var move := Move(white, red, b, ply, t);
    var t1 := t + [Propose(s, Colour(s), move)];
    match DropAt(b, move, Colour(s))
    case Failure(IndexError) => Stop(Outcome(t1, b, ply, Crash(s)))
    case Failure(IllegalMove) => Stop(Outcome(t1 + Rewards(rules, ply, s, RewardIllegalMove, RewardWin), b, ply, Illegal(s)))
    case Success(b1) =>
      if b1.winner.Some? then Stop(Outcome(t1 + Rewards(rules, ply, s, RewardWin, RewardLoss), b1, ply, Win(s)))
      else if ply == MaxMoves - 1 then Stop(Outcome(t1 + Rewards(rules, ply, s, RewardDraw, RewardDraw), b1, ply, Draw))
      else Go(b1, t1 + Deferred(rules, s, ply))
  }

  /** The game from ply on, on board b, after the calls t. */
  function PlayFrom(rules: Rules, white: Strategy, red: Strategy, b: Board, ply: nat, t: seq<Event>): (o: Outcome)
    requires ValidBoard(b) && ply < MaxMoves
    ensures |o.trace| > |t|
    ensures ply <= o.ply < MaxMoves
    ensures o.ending == Draw ==> o.ply == MaxMoves - 1
    decreases MaxMoves - ply
  {
    match PlyStep(rules, white, red, b, ply, t)
    case Stop(o) => o
    case Go(b1, t2) => PlayFrom(rules, white, red, b1, ply + 1, t2)
  }

  /** The ply's drop succeeds without a winner and it is not the last ply. */
  ghost predicate Continues(rules: Rules, white: Strategy, red: Strategy, b: Board, ply: nat, t: seq<Event>) {
    ValidBoard(b) && ply < MaxMoves - 1
    && var res := DropAt(b, Move(white, red, b, ply, t), Colour(Mover(ply)));
       res.Success? && res.value.winner.None?
  }

  /** A ply goes on exactly when it continues, on the board its drop gives and
      after its proposal and the deferred reward. */
  lemma StepGo(rules: Rules, white: Strategy, red: Strategy, b: Board, ply: nat, t: seq<Event>)
    requires ValidBoard(b) && ply < MaxMoves
    ensures var st, s, move := PlyStep(rules, white, red, b, ply, t), Mover(ply), Move(white, red, b, ply, t);
            (st.Go? <==> Continues(rules, white, red, b, ply, t))
            && (st.Go? ==> st.board == DropAt(b, move, Colour(s)).value
                           && st.trace == t + [Propose(s, Colour(s), move)] + Deferred(rules, s, ply))
  {
  }

  /** The last calls of a game, by how it ended: an escaping IndexError follows the
      out-of-range proposal at once; an illegal move costs the mover
      REWARD_ILLEGAL_MOVE and pays the other REWARD_WIN; a win pays the mover
      REWARD_WIN and costs the other REWARD_LOSS; the last ply pays both
      REWARD_DRAW. The other player's reward is left out where the rules say so. */
  ghost predicate EndsAsRuled(rules: Rules, o: Outcome) {
    var n, s := |o.trace|, Mover(o.ply);
    match o.ending
    case Crash(x) =>
      x == s && n > 0 && o.trace[n - 1].Propose? && o.trace[n - 1].side == s
      && (o.trace[n - 1].column < -Columns || Columns <= o.trace[n - 1].column)
    case Illegal(x) =>
      var tail := Rewards(rules, o.ply, s, RewardIllegalMove, RewardWin);
      x == s && n > |tail| && o.trace[n - |tail|..] == tail && o.trace[n - |tail| - 1].Propose?
    case Win(x) =>
      var tail := Rewards(rules, o.ply, s, RewardWin, RewardLoss);
      x == s && n > |tail| && o.trace[n - |tail|..] == tail && o.trace[n - |tail| - 1].Propose?
      && o.board.winner == Some(Colour(s))
    case Draw =>
      var tail := Rewards(rules, o.ply, s, RewardDraw, RewardDraw);
      n > |tail| && o.trace[n - |tail|..] == tail && o.trace[n - |tail| - 1].Propose?
      && o.board.winner == None
  }

  /** A proposal followed by a ply's closing rewards ends with those rewards. */
  lemma ClosingTail(rules: Rules, t: seq<Event>, k: nat, own: int, others: int)
    requires t != [] && t[|t| - 1].Propose?
    ensures var tail := Rewards(rules, k, Mover(k), own, others);
            var n := |t + tail|;
            n > |tail| && (t + tail)[n - |tail|..] == tail && (t + tail)[n - |tail| - 1].Propose?
  {
    var tail := Rewards(rules, k, Mover(k), own, others);
    assert (t + tail)[|t|..] == tail;
    assert (t + tail)[|t| - 1] == t[|t| - 1];
  }

  /** What the verdict of a drop on a board without a winner tells: an IndexError
      means a column out of numpy's range, and a winner afterwards is the mover. */
  lemma DropVerdict(b: Board, move: int, colour: Cell)
    requires ValidBoard(b) && b.winner == None && colour != Empty
    ensures DropAt(b, move, colour) == Failure(IndexError) ==> move < -Columns || Columns <= move
    ensures var res := DropAt(b, move, colour);
            res.Success? && res.value.winner.Some? ==> res.value.winner == Some(colour)
  {
  }

  /** A ply whose drop fails stops the game, ending as ruled. */
  lemma EndsOnFailure(rules: Rules, white: Strategy, red: Strategy, b: Board, ply: nat, t: seq<Event>)
    requires ValidBoard(b) && b.winner == None && ply < MaxMoves
    requires DropAt(b, Move(white, red, b, ply, t), Colour(Mover(ply))).Failure?
    ensures var st := PlyStep(rules, white, red, b, ply, t);
            st.Stop? && EndsAsRuled(rules, st.outcome)
    ensures var st, res := PlyStep(rules, white, red, b, ply, t), DropAt(b, Move(white, red, b, ply, t), Colour(Mover(ply)));
            st.Stop? && st.outcome.board == b
            && st.outcome.ending == (if res.error == IndexError then Crash(Mover(ply)) else Illegal(Mover(ply)))
  {
    var s := Mover(ply);
    var move := Move(white, red, b, ply, t);
    var t1 := t + [Propose(s, Colour(s), move)];
    var st := PlyStep(rules, white, red, b, ply, t);
    DropVerdict(b, move, Colour(s));
    if DropAt(b, move, Colour(s)).error == IndexError {
      assert st.outcome == Outcome(t1, b, ply, Crash(s));
    } else {
      assert st.outcome == Outcome(t1 + Rewards(rules, ply, s, RewardIllegalMove, RewardWin), b, ply, Illegal(s));
      ClosingTail(rules, t1, ply, RewardIllegalMove, RewardWin);
    }
  }

  /** A ply whose drop succeeds with a winner, or fills the last cell, stops the
      game, ending as ruled. */
  lemma EndsOnStop(rules: Rules, white: Strategy, red: Strategy, b: Board, ply: nat, t: seq<Event>)
    requires ValidBoard(b) && b.winner == None && ply < MaxMoves
    requires var res := DropAt(b, Move(white, red, b, ply, t), Colour(Mover(ply)));
             res.Success? && (res.value.winner.Some? || ply == MaxMoves - 1)
    ensures var st := PlyStep(rules, white, red, b, ply, t);
            st.Stop? && EndsAsRuled(rules, st.outcome)
    ensures var st, res := PlyStep(rules, white, red, b, ply, t), DropAt(b, Move(white, red, b, ply, t), Colour(Mover(ply)));
            st.Stop? && st.outcome.board == res.value
            && st.outcome.ending == (if res.value.winner.Some? then Win(Mover(ply)) else Draw)
  {
    var s := Mover(ply);
    var move := Move(white, red, b, ply, t);
    var t1 := t + [Propose(s, Colour(s), move)];
    var st := PlyStep(rules, white, red, b, ply, t);
    DropVerdict(b, move, Colour(s));
    var b1 := DropAt(b, move, Colour(s)).value;
    if b1.winner.Some? {
      assert st.outcome == Outcome(t1 + Rewards(rules, ply, s, RewardWin, RewardLoss), b1, ply, Win(s));
      ClosingTail(rules, t1, ply, RewardWin, RewardLoss);
    } else {
      assert st.outcome == Outcome(t1 + Rewards(rules, ply, s, RewardDraw, RewardDraw), b1, ply, Draw);
      ClosingTail(rules, t1, ply, RewardDraw, RewardDraw);
    }
  }

  /** From any ply of a game still going, the game ends as ruled. */
  lemma {:induction false} PlayFromEnds(rules: Rules, white: Strategy, red: Strategy, b: Board, ply: nat, t: seq<Event>)
    requires ValidBoard(b) && b.winner == None && ply < MaxMoves
    ensures EndsAsRuled(rules, PlayFrom(rules, white, red, b, ply, t))
    decreases MaxMoves - ply
  {
    var st := PlyStep(rules, white, red, b, ply, t);
    StepGo(rules, white, red, b, ply, t);
    if st.Go? {
      PlayFromGo(rules, white, red, b, ply, t);
      PlayFromEnds(rules, white, red, st.board, ply + 1, st.trace);
    } else {
      EndsOnHalt(rules, white, red, b, ply, t);
    }
  }

  /** A ply that stops the game ends it as ruled. */
  lemma EndsOnHalt(rules: Rules, white: Strategy, red: Strategy, b: Board, ply: nat, t: seq<Event>)
    requires ValidBoard(b) && b.winner == None && ply < MaxMoves
    requires PlyStep(rules, white, red, b, ply, t).Stop?
    ensures EndsAsRuled(rules, PlyStep(rules, white, red, b, ply, t).outcome)
    ensures var o, res := PlyStep(rules, white, red, b, ply, t).outcome, DropAt(b, Move(white, red, b, ply, t), Colour(Mover(ply)));
            o.ending == if res.Failure? then (if res.error == IndexError then Crash(Mover(ply)) else Illegal(Mover(ply)))
                        else if res.value.winner.Some? then Win(Mover(ply)) else Draw
  {
    StepGo(rules, white, red, b, ply, t);
    if DropAt(b, Move(white, red, b, ply, t), Colour(Mover(ply))).Failure? {
      EndsOnFailure(rules, white, red, b, ply, t);
    } else {
      EndsOnStop(rules, white, red, b, ply, t);
    }
  }

  /** The calls tr go on from t with the proposal of move by the mover at ply. */
  ghost predicate Opens(tr: seq<Event>, t: seq<Event>, ply: nat, move: int) {
    var t1 := t + [Propose(Mover(ply), Colour(Mover(ply)), move)];
    |t1| <= |tr| && tr[..|t1|] == t1
  }

  /** Calls that go on from a ply's calls t2 go on from the calls t before it. */
  lemma OpensEarlier(tr: seq<Event>, t: seq<Event>, t2: seq<Event>, rules: Rules, ply: nat, move: int, next: int)
    requires t2 == t + [Propose(Mover(ply), Colour(Mover(ply)), move)] + Deferred(rules, Mover(ply), ply)
    requires Opens(tr, t2, ply + 1, next)
    ensures Opens(tr, t, ply, move)
  {
    PrefixShrink(tr, t2, [Propose(Mover(ply + 1), Colour(Mover(ply + 1)), next)]);
    PrefixShrink(tr, t + [Propose(Mover(ply), Colour(Mover(ply)), move)], Deferred(rules, Mover(ply), ply));
  }

  /** A ply that stops the game leaves its proposal as the call after t. */
  lemma StopExtends(rules: Rules, white: Strategy, red: Strategy, b: Board, ply: nat, t: seq<Event>)
    requires ValidBoard(b) && ply < MaxMoves
    requires PlyStep(rules, white, red, b, ply, t).Stop?
    ensures Opens(PlyStep(rules, white, red, b, ply, t).outcome.trace, t, ply, Move(white, red, b, ply, t))
  {
    var s, move := Mover(ply), Move(white, red, b, ply, t);
    var t1 := t + [Propose(s, Colour(s), move)];
    var tr := PlyStep(rules, white, red, b, ply, t).outcome.trace;
    var res := DropAt(b, move, Colour(s));
    if res == Failure(IndexError) {
      assert tr == t1;
    } else if res.Failure? {
      var tail := Rewards(rules, ply, s, RewardIllegalMove, RewardWin);
      assert tr == t1 + tail;
      TakeAppend(t1, tail);
    } else if res.value.winner.Some? {
      var tail := Rewards(rules, ply, s, RewardWin, RewardLoss);
      assert tr == t1 + tail;
      TakeAppend(t1, tail);
    } else {
      var tail := Rewards(rules, ply, s, RewardDraw, RewardDraw);
      assert tr == t1 + tail;
      TakeAppend(t1, tail);
    }
  }

  lemma TakeAppend(a: seq<Event>, b: seq<Event>)
    ensures (a + b)[..|a|] == a
  {
  }

  /** A trace that starts with a + b starts with a. */
  lemma PrefixShrink(tr: seq<Event>, a: seq<Event>, b: seq<Event>)
    requires |a + b| <= |tr| && tr[..|a + b|] == a + b
    ensures |a| <= |tr| && tr[..|a|] == a
  {
    assert tr[..|a|] == tr[..|a + b|][..|a|];
  }

  /** The calls of a game continue the calls made before it, starting with the
      mover's propose_move, with its colour and the column its strategy returns. */
  lemma {:induction false} PlayFromExtends(rules: Rules, white: Strategy, red: Strategy, b: Board, ply: nat, t: seq<Event>)
    requires ValidBoard(b) && ply < MaxMoves
    ensures Opens(PlayFrom(rules, white, red, b, ply, t).trace, t, ply, Move(white, red, b, ply, t))
    decreases MaxMoves - ply
  {
    var st := PlyStep(rules, white, red, b, ply, t);
    StepGo(rules, white, red, b, ply, t);
    if st.Go? {
      PlayFromGo(rules, white, red, b, ply, t);
      var o := PlayFrom(rules, white, red, st.board, ply + 1, st.trace);
      PlayFromExtends(rules, white, red, st.board, ply + 1, st.trace);
      OpensEarlier(o.trace, t, st.trace, rules, ply, Move(white, red, b, ply, t), Move(white, red, st.board, ply + 1, st.trace));
    } else {
      assert PlayFrom(rules, white, red, b, ply, t) == st.outcome;
      StopExtends(rules, white, red, b, ply, t);
    }
  }

  /** After the calls t, the calls tr of ply ply: the mover's proposal of move,
      then only the other player's REWARD_LEGAL_MOVE where the rules pay it, then
      the other player's proposal. */
  ghost predicate HandsOver(tr: seq<Event>, t: seq<Event>, rules: Rules, ply: nat, move: int) {
    var s, d := Mover(ply), if OtherRewarded(rules, ply) then 1 else 0;
    |tr| > |t| + 1 + d
    && tr[|t|] == Propose(s, Colour(s), move)
    && (OtherRewarded(rules, ply) ==> tr[|t| + 1] == Receive(Other(s), RewardLegalMove))
    && tr[|t| + 1 + d].Propose? && tr[|t| + 1 + d].side == Other(s)
  }

  /** A legal move that neither wins nor fills the board pays only the other
      player, REWARD_LEGAL_MOVE where the rules pay it, and the next call is the
      other player's proposal: the mover receives nothing. */
  lemma LegalMoveDefersReward(rules: Rules, white: Strategy, red: Strategy, b: Board, ply: nat, t: seq<Event>)
    requires Continues(rules, white, red, b, ply, t)
    ensures HandsOver(PlayFrom(rules, white, red, b, ply, t).trace, t, rules, ply, Move(white, red, b, ply, t))
  {
    var st := PlyStep(rules, white, red, b, ply, t);
    StepGo(rules, white, red, b, ply, t);
    PlayFromGo(rules, white, red, b, ply, t);
    var o := PlayFrom(rules, white, red, st.board, ply + 1, st.trace);
    PlayFromExtends(rules, white, red, st.board, ply + 1, st.trace);
    HandOver(o.trace, t, st.trace, rules, ply, Move(white, red, b, ply, t), Move(white, red, st.board, ply + 1, st.trace));
  }

  /** A ply that goes on hands the game to the next ply. */
  lemma PlayFromGo(rules: Rules, white: Strategy, red: Strategy, b: Board, ply: nat, t: seq<Event>)
    requires ValidBoard(b) && ply < MaxMoves && PlyStep(rules, white, red, b, ply, t).Go?
    ensures var st := PlyStep(rules, white, red, b, ply, t);
            PlayFrom(rules, white, red, b, ply, t) == PlayFrom(rules, white, red, st.board, ply + 1, st.trace)
  {
  }

  /** The index facts of a ply handing over, on any trace that starts with its
      calls and the next mover's proposal p. */
  lemma HandOver(tr: seq<Event>, t: seq<Event>, t2: seq<Event>, rules: Rules, ply: nat, move: int, next: int)
    requires t2 == t + [Propose(Mover(ply), Colour(Mover(ply)), move)] + Deferred(rules, Mover(ply), ply)
    requires Opens(tr, t2, ply + 1, next)
    ensures HandsOver(tr, t, rules, ply, move)
  {
    var s := Mover(ply);
    var p := Propose(Mover(ply + 1), Colour(Mover(ply + 1)), next);
    MoverNext(ply);
    var u := [Propose(s, Colour(s), move)] + Deferred(rules, s, ply) + [p];
    assert t2 + [p] == t + u;
    PrefixIndices(tr, t, u);
  }

  /** A trace that starts with t + u holds u right after t. */
  lemma PrefixIndices(tr: seq<Event>, t: seq<Event>, u: seq<Event>)
    requires |t + u| <= |tr| && tr[..|t + u|] == t + u
    ensures forall i :: 0 <= i < |u| ==> tr[|t| + i] == u[i]
  {
    forall i | 0 <= i < |u| ensures tr[|t| + i] == u[i] {
      assert tr[|t| + i] == tr[..|t + u|][|t| + i];
    }
  }

  /** Calls on one player alternate between propose_move and receive_reward,
      starting with propose_move when first holds and with receive_reward otherwise. */
  ghost predicate Alternates(h: seq<Event>, first: bool) {
    forall i :: 0 <= i < |h| ==> (h[i].Propose? <==> ((i % 2 == 0) == first))
  }

  /** What the docstring of play promises each player: propose_move and
      receive_reward alternately, in that order, the same number of times, so the
      first call is propose_move and the last receive_reward. */
  ghost predicate Balanced(h: seq<Event>) {
    Alternates(h, true) && |h| % 2 == 0
  }

  /** Whether the player's calls start with propose_move: white's always do; red's do
      only when nothing is paid to it on ply 0. */
  predicate StartsWithProposal(rules: Rules, s: Side) {
    s == WhiteSide || rules == FirstPlyGuarded
  }

  /** The number of calls on player s during plies 0 .. k-1 of a game still going:
      one per ply, except that red gets none on ply 0 under FirstPlyGuarded. */
  function Calls(rules: Rules, s: Side, k: nat): (n: nat)
    ensures n <= k
  {
    if s == RedSide && rules == FirstPlyGuarded && k > 0 then k - 1
    else if s == RedSide && rules == FirstPlyGuarded then 0
    else k
  }

  /** The proposals follow players[move_number % 2] with its colour. */
  ghost predicate MoversAlternate(p: seq<Event>) {
    forall j :: 0 <= j < |p| ==> p[j].Propose? && p[j].side == Mover(j) && p[j].colour == Colour(Mover(j))
  }

  /** The calls made on player s so far: alternating from the rules' start, n of them. */
  ghost predicate History(rules: Rules, t: seq<Event>, s: Side, n: nat) {
    Alternates(Seen(t, s), StartsWithProposal(rules, s)) && |Seen(t, s)| == n
  }

  /** The calls made before ply k of a game still going. */
  ghost predicate OnCourse(rules: Rules, t: seq<Event>, k: nat) {
    |Proposals(t)| == k && MoversAlternate(Proposals(t))
    && History(rules, t, WhiteSide, Calls(rules, WhiteSide, k))
    && History(rules, t, RedSide, Calls(rules, RedSide, k))
  }

  /** The calls made by a whole game that stopped at ply k: k + 1 proposals in
      turn; on each player its calls before ply k, then the mover's proposal, then,
      unless an IndexError escaped, the mover's reward and the other's where the
      rules pay it. */
  ghost predicate CallsAsRuled(rules: Rules, o: Outcome) {
    var k, m, closed := o.ply, Mover(o.ply), !o.ending.Crash?;
    |Proposals(o.trace)| == k + 1 && MoversAlternate(Proposals(o.trace))
    && History(rules, o.trace, m, Calls(rules, m, k) + 1 + (if closed then 1 else 0))
    && History(rules, o.trace, Other(m), Calls(rules, Other(m), k) + (if closed && OtherRewarded(rules, k) then 1 else 0))
  }

  lemma SeenSnoc(t: seq<Event>, e: Event, s: Side)
    ensures Seen(t + [e], s) == Seen(t, s) + (if e.side == s then [e] else [])
  {
    assert (t + [e])[..|t + [e]| - 1] == t;
  }

  lemma ProposalsSnoc(t: seq<Event>, e: Event)
    ensures Proposals(t + [e]) == Proposals(t) + (if e.Propose? then [e] else [])
  {
    assert (t + [e])[..|t + [e]| - 1] == t;
  }

  /** A side's history holds exactly the trace's events made on that side. */
  lemma {:induction false} SeenMembers(t: seq<Event>, s: Side)
    ensures forall e :: e in Seen(t, s) <==> e in t && e.side == s
  {
    if t != [] {
      var u, e := t[..|t| - 1], t[|t| - 1];
      assert t == u + [e];
      SeenMembers(u, s);
      SeenSnoc(u, e, s);
    }
  }

  /** The proposals are exactly the trace's propose_move calls. */
  lemma {:induction false} ProposalsMembers(t: seq<Event>)
    ensures forall e :: e in Proposals(t) <==> e in t && e.Propose?
  {
    if t != [] {
      var u, e := t[..|t| - 1], t[|t| - 1];
      assert t == u + [e];
      ProposalsMembers(u);
      ProposalsSnoc(u, e);
    }
  }

  lemma AlternatesSnoc(h: seq<Event>, e: Event, first: bool)
    requires Alternates(h, first)
    requires e.Propose? <==> ((|h| % 2 == 0) == first)
    ensures Alternates(h + [e], first)
  {
    assert forall i :: 0 <= i < |h| ==> (h + [e])[i] == h[i];
  }

  /** On ply k the mover's next call is at an index of the parity that makes it a
      proposal, and the other's next call at one that makes it a reward. */
  lemma CallParity(rules: Rules, k: nat)
    ensures var m := Mover(k);
            (Calls(rules, m, k) % 2 == 0) == StartsWithProposal(rules, m)
    ensures var o := Other(Mover(k));
            OtherRewarded(rules, k) ==> (Calls(rules, o, k) % 2 == 0) != StartsWithProposal(rules, o)
    ensures Calls(rules, Mover(k), k + 1) == Calls(rules, Mover(k), k) + 1
    ensures Calls(rules, Other(Mover(k)), k + 1) == Calls(rules, Other(Mover(k)), k) + (if OtherRewarded(rules, k) then 1 else 0)
  {
  }

  /** Appending a call on x: its history grows by it, the other's stays. */
  lemma CallOn(rules: Rules, t: seq<Event>, e: Event, n: nat, n': nat)
    requires History(rules, t, e.side, n) && History(rules, t, Other(e.side), n')
    requires e.Propose? <==> ((n % 2 == 0) == StartsWithProposal(rules, e.side))
    ensures History(rules, t + [e], e.side, n + 1) && History(rules, t + [e], Other(e.side), n')
    ensures e.Receive? ==> Proposals(t + [e]) == Proposals(t)
  {
    SeenSnoc(t, e, e.side);
    SeenSnoc(t, e, Other(e.side));
    AlternatesSnoc(Seen(t, e.side), e, StartsWithProposal(rules, e.side));
    ProposalsSnoc(t, e);
  }

  /** The proposal on ply k of a game still going. */
  lemma ProposeStep(rules: Rules, t: seq<Event>, k: nat, column: int)
    requires OnCourse(rules, t, k)
    ensures var m := Mover(k);
            var t1 := t + [Propose(m, Colour(m), column)];
            |Proposals(t1)| == k + 1 && MoversAlternate(Proposals(t1))
            && History(rules, t1, m, Calls(rules, m, k) + 1)
            && History(rules, t1, Other(m), Calls(rules, Other(m), k))
  {
    var m := Mover(k);
    var e := Propose(m, Colour(m), column);
    CallParity(rules, k);
    assert Other(m) == (if m == WhiteSide then RedSide else WhiteSide);
    CallOn(rules, t, e, Calls(rules, m, k), Calls(rules, Other(m), k));
    ProposalsSnoc(t, e);
    var p := Proposals(t + [e]);
    assert p == Proposals(t) + [e];
    forall j | 0 <= j < |p| ensures p[j].Propose? && p[j].side == Mover(j) && p[j].colour == Colour(Mover(j)) {
      if j < k {
        assert p[j] == Proposals(t)[j];
      }
    }
  }

  /** The state right after the proposal on ply k. */
  ghost predicate Proposed(rules: Rules, t: seq<Event>, k: nat) {
    var m := Mover(k);
    |Proposals(t)| == k + 1 && MoversAlternate(Proposals(t))
    && History(rules, t, m, Calls(rules, m, k) + 1)
    && History(rules, t, Other(m), Calls(rules, Other(m), k))
  }

  /** A ply that ends the game: the mover's reward, then the other's where paid. */
  lemma CloseStep(rules: Rules, t: seq<Event>, k: nat, own: int, others: int)
    requires Proposed(rules, t, k)
    ensures var m := Mover(k);
            var t' := t + Rewards(rules, k, m, own, others);
            |Proposals(t')| == k + 1 && MoversAlternate(Proposals(t'))
            && History(rules, t', m, Calls(rules, m, k) + 2)
            && History(rules, t', Other(m), Calls(rules, Other(m), k) + (if OtherRewarded(rules, k) then 1 else 0))
  {
    var m := Mover(k);
    CallParity(rules, k);
    assert Other(Other(m)) == m;
    var e := Receive(m, own);
    CallOn(rules, t, e, Calls(rules, m, k) + 1, Calls(rules, Other(m), k));
    if OtherRewarded(rules, k) {
      var e' := Receive(Other(m), others);
      CallOn(rules, t + [e], e', Calls(rules, Other(m), k), Calls(rules, m, k) + 2);
      assert t + Rewards(rules, k, m, own, others) == t + [e] + [e'];
    } else {
      assert t + Rewards(rules, k, m, own, others) == t + [e];
    }
  }

  /** A ply that lets the game go on: the other player's REWARD_LEGAL_MOVE where
      paid, after which the calls are those before ply k + 1. */
  lemma DeferStep(rules: Rules, t: seq<Event>, k: nat)
    requires Proposed(rules, t, k)
    ensures var m := Mover(k);
            OnCourse(rules, t + Deferred(rules, m, k), k + 1)
  {
    var m := Mover(k);
    CallParity(rules, k);
    assert Other(Other(m)) == m;
    MoverNext(k);
    if OtherRewarded(rules, k) {
      var e := Receive(Other(m), RewardLegalMove);
      CallOn(rules, t, e, Calls(rules, Other(m), k), Calls(rules, m, k) + 1);
    } else {
      assert t + [] == t;
    }
  }

  /** A ply whose drop fails stops the game with the calls as ruled. */
  lemma ShapeOnFailure(rules: Rules, white: Strategy, red: Strategy, b: Board, ply: nat, t: seq<Event>)
    requires ValidBoard(b) && ply < MaxMoves && OnCourse(rules, t, ply)
    requires DropAt(b, Move(white, red, b, ply, t), Colour(Mover(ply))).Failure?
    ensures var st := PlyStep(rules, white, red, b, ply, t);
            st.Stop? && CallsAsRuled(rules, st.outcome)
  {
    var s := Mover(ply);
    var move := Move(white, red, b, ply, t);
    var t1 := t + [Propose(s, Colour(s), move)];
    var st := PlyStep(rules, white, red, b, ply, t);
    ProposeStep(rules, t, ply, move);
    if DropAt(b, move, Colour(s)).error == IndexError {
      assert st.outcome == Outcome(t1, b, ply, Crash(s));
    } else {
      assert st.outcome == Outcome(t1 + Rewards(rules, ply, s, RewardIllegalMove, RewardWin), b, ply, Illegal(s));
      CloseStep(rules, t1, ply, RewardIllegalMove, RewardWin);
    }
  }

  /** A ply that wins or fills the last cell stops the game with the calls as ruled. */
  lemma ShapeOnStop(rules: Rules, white: Strategy, red: Strategy, b: Board, ply: nat, t: seq<Event>)
    requires ValidBoard(b) && ply < MaxMoves && OnCourse(rules, t, ply)
    requires var res := DropAt(b, Move(white, red, b, ply, t), Colour(Mover(ply)));
             res.Success? && (res.value.winner.Some? || ply == MaxMoves - 1)
    ensures var st := PlyStep(rules, white, red, b, ply, t);
            st.Stop? && CallsAsRuled(rules, st.outcome)
  {
    var s := Mover(ply);
    var move := Move(white, red, b, ply, t);
    var t1 := t + [Propose(s, Colour(s), move)];
    var st := PlyStep(rules, white, red, b, ply, t);
    ProposeStep(rules, t, ply, move);
    var b1 := DropAt(b, move, Colour(s)).value;
    if b1.winner.Some? {
      assert st.outcome == Outcome(t1 + Rewards(rules, ply, s, RewardWin, RewardLoss), b1, ply, Win(s));
      CloseStep(rules, t1, ply, RewardWin, RewardLoss);
    } else {
      assert st.outcome == Outcome(t1 + Rewards(rules, ply, s, RewardDraw, RewardDraw), b1, ply, Draw);
      CloseStep(rules, t1, ply, RewardDraw, RewardDraw);
    }
  }

  /** A ply that lets the game go on leaves the calls of a game still going at
      the next ply. */
  lemma ShapeOnGo(rules: Rules, white: Strategy, red: Strategy, b: Board, ply: nat, t: seq<Event>)
    requires ValidBoard(b) && ply < MaxMoves && OnCourse(rules, t, ply)
    requires PlyStep(rules, white, red, b, ply, t).Go?
    ensures OnCourse(rules, PlyStep(rules, white, red, b, ply, t).trace, ply + 1)
  {
    var s, move := Mover(ply), Move(white, red, b, ply, t);
    StepGo(rules, white, red, b, ply, t);
    ProposeStep(rules, t, ply, move);
    DeferStep(rules, t + [Propose(s, Colour(s), move)], ply);
  }

  /** A ply that stops the game leaves its calls as ruled. */
  lemma ShapeOnHalt(rules: Rules, white: Strategy, red: Strategy, b: Board, ply: nat, t: seq<Event>)
    requires ValidBoard(b) && ply < MaxMoves && OnCourse(rules, t, ply)
    requires PlyStep(rules, white, red, b, ply, t).Stop?
    ensures CallsAsRuled(rules, PlyStep(rules, white, red, b, ply, t).outcome)
  {
    StepGo(rules, white, red, b, ply, t);
    if DropAt(b, Move(white, red, b, ply, t), Colour(Mover(ply))).Failure? {
      ShapeOnFailure(rules, white, red, b, ply, t);
    } else {
      ShapeOnStop(rules, white, red, b, ply, t);
    }
  }

  /** From any ply of a game still going, the calls of the whole game are as ruled. */
  lemma {:induction false} PlayFromShape(rules: Rules, white: Strategy, red: Strategy, b: Board, ply: nat, t: seq<Event>)
    requires ValidBoard(b) && ply < MaxMoves && OnCourse(rules, t, ply)
    ensures CallsAsRuled(rules, PlayFrom(rules, white, red, b, ply, t))
    decreases MaxMoves - ply
  {
    var st := PlyStep(rules, white, red, b, ply, t);
    if st.Go? {
      ShapeOnGo(rules, white, red, b, ply, t);
      PlayFromGo(rules, white, red, b, ply, t);
      PlayFromShape(rules, white, red, st.board, ply + 1, st.trace);
    } else {
      ShapeOnHalt(rules, white, red, b, ply, t);
    }
  }

  /** play: a fresh board, ply 0, no calls yet. */
  function Play(rules: Rules, white: Strategy, red: Strategy): Outcome {
    PlayFrom(rules, white, red, NewBoard(), 0, [])
  }

  /** The number of proposals in alternating calls: half, rounded up when the
      calls start with a proposal and down when they start with a reward. */
  lemma {:induction false} AlternatingCounts(h: seq<Event>, first: bool)
    requires Alternates(h, first)
    ensures |Proposals(h)| == if first then (|h| + 1) / 2 else |h| / 2
  {
    if h != [] {
      var h', e := h[..|h| - 1], h[|h| - 1];
      assert h == h' + [e];
      assert forall i :: 0 <= i < |h'| ==> h'[i] == h[i];
      AlternatingCounts(h', first);
      ProposalsSnoc(h', e);
    }
  }

  /** Balanced calls hold as many proposals as rewards. */
  lemma BalancedCounts(h: seq<Event>)
    requires Balanced(h)
    ensures |h| == 2 * |Proposals(h)|
    ensures h != [] ==> h[0].Propose? && h[|h| - 1].Receive?
  {
    AlternatingCounts(h, true);
  }

  /** Every game's calls: the proposals in turn and each player's calls as ruled,
      ending as ruled. */
  lemma PlayAsRuled(rules: Rules, white: Strategy, red: Strategy)
    ensures CallsAsRuled(rules, Play(rules, white, red))
    ensures EndsAsRuled(rules, Play(rules, white, red))
  {
    var b := NewBoard();
    assert OnCourse(rules, [], 0);
    PlayFromShape(rules, white, red, b, 0, []);
    PlayFromEnds(rules, white, red, b, 0, []);
  }

  /** A game has one proposal per ply played, at most ROWS * COLUMNS of them, and a
      draw uses them all. */
  lemma PlayLength(rules: Rules, white: Strategy, red: Strategy)
    ensures var o := Play(rules, white, red);
            |Proposals(o.trace)| == o.ply + 1 <= MaxMoves
            && (o.ending == Draw ==> |Proposals(o.trace)| == MaxMoves)
  {
    PlayAsRuled(rules, white, red);
  }

  /** White's calls are balanced, whichever rules pay red, unless an IndexError
      escaped. */
  lemma WhiteBalancedWhenRuled(rules: Rules, o: Outcome)
    requires CallsAsRuled(rules, o) && !o.ending.Crash?
    ensures Balanced(Seen(o.trace, WhiteSide))
  {
    CallParity(rules, o.ply);
    if Mover(o.ply) == RedSide {
      assert Other(Mover(o.ply)) == WhiteSide;
    }
  }

  /** As written, red's first call is a receive_reward and red gets one reward more
      than it makes proposals, unless an IndexError escaped: the promise of play's
      docstring does not hold for red. */
  lemma RedRewardedFirstWhenRuled(o: Outcome)
    requires CallsAsRuled(AsWritten, o) && !o.ending.Crash?
    ensures var h := Seen(o.trace, RedSide);
            h != [] && h[0].Receive? && |h| - |Proposals(h)| == |Proposals(h)| + 1 && !Balanced(h)
  {
    CallParity(AsWritten, o.ply);
    if Mover(o.ply) == WhiteSide {
      assert Other(Mover(o.ply)) == RedSide;
    }
    RewardFirstCounts(Seen(o.trace, RedSide));
  }

  /** Alternating calls that start with a reward and are odd in number hold one
      reward more than proposals. */
  lemma RewardFirstCounts(h: seq<Event>)
    requires Alternates(h, false) && |h| % 2 == 1
    ensures h != [] && h[0].Receive? && |h| - |Proposals(h)| == |Proposals(h)| + 1 && !Balanced(h)
  {
    AlternatingCounts(h, false);
  }

  /** With the other player paid only from ply 1 on, both players' calls are
      balanced unless an IndexError escaped: the docstring's promise holds. */
  lemma GuardedBalancedWhenRuled(o: Outcome)
    requires CallsAsRuled(FirstPlyGuarded, o) && !o.ending.Crash?
    ensures Balanced(Seen(o.trace, WhiteSide)) && Balanced(Seen(o.trace, RedSide))
  {
    CallParity(FirstPlyGuarded, o.ply);
    assert Other(Mover(o.ply)) == (if Mover(o.ply) == WhiteSide then RedSide else WhiteSide);
  }

  lemma WhiteBalanced(rules: Rules, white: Strategy, red: Strategy)
    ensures var o := Play(rules, white, red);
            !o.ending.Crash? ==> Balanced(Seen(o.trace, WhiteSide))
  {
    PlayAsRuled(rules, white, red);
    var o := Play(rules, white, red);
    if !o.ending.Crash? {
      WhiteBalancedWhenRuled(rules, o);
    }
  }

  lemma RedRewardedFirst(white: Strategy, red: Strategy)
    ensures var o := Play(AsWritten, white, red);
            var h := Seen(o.trace, RedSide);
            !o.ending.Crash? ==> h != [] && h[0].Receive? && |h| - |Proposals(h)| == |Proposals(h)| + 1 && !Balanced(h)
  {
    PlayAsRuled(AsWritten, white, red);
    var o := Play(AsWritten, white, red);
    if !o.ending.Crash? {
      RedRewardedFirstWhenRuled(o);
    }
  }

  lemma GuardedBalanced(white: Strategy, red: Strategy)
    ensures var o := Play(FirstPlyGuarded, white, red);
            !o.ending.Crash? ==> Balanced(Seen(o.trace, WhiteSide)) && Balanced(Seen(o.trace, RedSide))
  {
    PlayAsRuled(FirstPlyGuarded, white, red);
    var o := Play(FirstPlyGuarded, white, red);
    if !o.ending.Crash? {
      GuardedBalancedWhenRuled(o);
    }
  }
}
