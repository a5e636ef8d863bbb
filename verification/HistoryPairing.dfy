/** `history_snapshot_from_history` in evaluation/run_benchmark.py: pairing turns into exchanges loses nothing but
    the tail of long answers. */
module HistoryPairing {
  import opened Wrappers

  datatype Role = User | Assistant | OtherRole

  datatype Turn = Turn(role: Role, content: string)

  datatype Exchange = Exchange(user: string, assistant: string)

  const ANSWER_LIMIT: nat := 500

  /** `content[:500]` */
  function Cut(content: string): string {
    if |content| <= ANSWER_LIMIT then content else content[..ANSWER_LIMIT]
  }

  /** The loop variables: the exchanges so far and the user text waiting for an answer. */
  datatype Pairing = Pairing(out: seq<Exchange>, pending: Option<string>)

  function PairTurn(p: Pairing, turn: Turn): Pairing {
    match turn.role
    case User =>
      Pairing(if p.pending.Some? then p.out + [Exchange(p.pending.value, "")] else p.out, Some(turn.content))
    case Assistant =>
      Pairing(p.out + [Exchange(if p.pending.Some? then p.pending.value else "", Cut(turn.content))], None)
    case OtherRole => p
  }

  function PairTurns(hist: seq<Turn>): Pairing {
    if hist == [] then Pairing([], None) else PairTurn(PairTurns(hist[..|hist| - 1]), hist[|hist| - 1])
  }

  function Closed(p: Pairing): seq<Exchange> {
    if p.pending.Some? then p.out + [Exchange(p.pending.value, "")] else p.out
  }

  method HistorySnapshot(hist: seq<Turn>) returns (out: seq<Exchange>)
    ensures out == Closed(PairTurns(hist))
    ensures Flatten(out) == Spoken(hist)
    ensures |out| == Openings(hist)
  {
    out := [];
    var pendingUser: Option<string> := None;
    for i := 0 to |hist|
      invariant Pairing(out, pendingUser) == PairTurns(hist[..i])
    {
      assert hist[..i + 1][..i] == hist[..i];
      var turn := hist[i];
      if turn.role.User? {
        if pendingUser.Some? { out := out + [Exchange(pendingUser.value, "")]; }
        pendingUser := Some(turn.content);
      } else if turn.role.Assistant? {
        out := out + [Exchange(if pendingUser.Some? then pendingUser.value else "", Cut(turn.content))];
        pendingUser := None;
      }
    }
    assert hist[..|hist|] == hist;
    if pendingUser.Some? { out := out + [Exchange(pendingUser.value, "")]; }
    PairingKeepsTurns(hist);
    PairingCounts(hist);
  }

  /* --- reading the exchanges back --- */

  function Said(role: Role, text: string): seq<Turn> {
    if text == "" then [] else [Turn(role, text)]
  }

  /** The exchanges as turns again, placeholders dropped. */
  function Flatten(out: seq<Exchange>): seq<Turn> {
    if out == [] then []
    else
      var last := out[|out| - 1];
      Flatten(out[..|out| - 1]) + Said(User, last.user) + Said(Assistant, last.assistant)
  }

  /** The non-empty user and assistant turns in order, answers cut. */
  function Spoken(hist: seq<Turn>): seq<Turn> {
    if hist == [] then []
    else Spoken(hist[..|hist| - 1]) + Heard(hist[|hist| - 1])
  }

  /** The role of the last user or assistant turn. */
  function LastSpeaker(hist: seq<Turn>): Role {
    if hist == [] then OtherRole
    else if hist[|hist| - 1].role.OtherRole? then LastSpeaker(hist[..|hist| - 1])
    else hist[|hist| - 1].role
  }

  /** How many exchanges there are: one for each user turn and one for each answer to nothing. */
  function Openings(hist: seq<Turn>): nat {
    if hist == [] then 0
    else
      var before, last := hist[..|hist| - 1], hist[|hist| - 1];
      Openings(before) + if last.role.User? || (last.role.Assistant? && !LastSpeaker(before).User?) then 1 else 0
  }

  lemma FlattenNext(out: seq<Exchange>, e: Exchange)
    ensures Flatten(out + [e]) == Flatten(out) + Said(User, e.user) + Said(Assistant, e.assistant)
  {
    assert (out + [e])[..|out|] == out;
  }

  /** The turns already taken in, the waiting one included. */
  function Taken(p: Pairing): seq<Turn> {
    Flatten(p.out) + if p.pending.Some? then Said(User, p.pending.value) else []
  }

  function Heard(turn: Turn): seq<Turn> {
    match turn.role
    case User => Said(User, turn.content)
    case Assistant => Said(Assistant, Cut(turn.content))
    case OtherRole => []
  }

  lemma {:induction false} TurnTaken(p: Pairing, turn: Turn)
    ensures Taken(PairTurn(p, turn)) == Taken(p) + Heard(turn)
  {
    hide Flatten, Cut;
    var waiting := if p.pending.Some? then p.pending.value else "";
    FlattenNext(p.out, Exchange(waiting, ""));
    FlattenNext(p.out, Exchange(waiting, Cut(turn.content)));
  }

  lemma NothingTaken()
    ensures Taken(Pairing([], None)) == []
  {
  }

  /** Pairing round trip: for every history, reading the exchanges back gives the spoken turns in their order. */
  lemma {:induction false} PairingKeepsTurns(hist: seq<Turn>)
    ensures Taken(PairTurns(hist)) == Spoken(hist)
    ensures Flatten(Closed(PairTurns(hist))) == Spoken(hist)
  {
    hide Flatten, PairTurn;
    var q := PairTurns(hist);
    if hist == [] {
      NothingTaken();
    } else {
      PairingKeepsTurns(hist[..|hist| - 1]);
      TurnTaken(PairTurns(hist[..|hist| - 1]), hist[|hist| - 1]);
    }
    if q.pending.Some? { FlattenNext(q.out, Exchange(q.pending.value, "")); }
  }

  /** There is one exchange for each opening turn, and a user turn waits exactly when the user spoke last. */
  lemma {:induction false} PairingCounts(hist: seq<Turn>)
    ensures |Closed(PairTurns(hist))| == Openings(hist)
    ensures PairTurns(hist).pending.Some? <==> LastSpeaker(hist).User?
  {
    if hist != [] {
      PairingCounts(hist[..|hist| - 1]);
    }
  }

  lemma PairNext(hist: seq<Turn>, turn: Turn)
    ensures PairTurns(hist + [turn]) == PairTurn(PairTurns(hist), turn)
  {
    assert (hist + [turn])[..|hist|] == hist;
  }

  lemma {:induction false} OthersSkipped(hist: seq<Turn>, others: seq<Turn>)
    requires forall turn :: turn in others ==> turn.role.OtherRole?
    ensures PairTurns(hist + others) == PairTurns(hist)
  {
    if others == [] {
      assert hist + others == hist;
    } else {
      var init, last := others[..|others| - 1], others[|others| - 1];
      OthersSkipped(hist, init);
      PairNext(hist + init, last);
      assert hist + others == (hist + init) + [last];
    }
  }

  /** Exchanges once made never change. */
  lemma {:induction false} ExchangesStay(hist: seq<Turn>, after: seq<Turn>)
    ensures PairTurns(hist).out <= PairTurns(hist + after).out
  {
    if after == [] {
      assert hist + after == hist;
    } else {
      var init, last := after[..|after| - 1], after[|after| - 1];
      ExchangesStay(hist, init);
      PairNext(hist + init, last);
      assert hist + after == (hist + init) + [last];
    }
  }

  /** A user turn and its direct answer are never split over two exchanges: wherever they stand in the history, they
      are one exchange, right after those of the turns before. */
  lemma {:induction false} AnswerJoinsTurn(before: seq<Turn>, asked: Turn, between: seq<Turn>, answer: Turn,
                                           after: seq<Turn>)
    requires asked.role.User? && answer.role.Assistant? && forall turn :: turn in between ==> turn.role.OtherRole?
    ensures var out := Closed(PairTurns(before + [asked] + between + [answer] + after));
            Closed(PairTurns(before)) + [Exchange(asked.content, Cut(answer.content))] <= out
  {
    hide PairTurns, Cut;
    PairNext(before, asked);
    OthersSkipped(before + [asked], between);
    PairNext(before + [asked] + between, answer);
    ExchangesStay(before + [asked] + between + [answer], after);
  }

  /** One more turn, exchange by exchange: a user turn opens an exchange, an answer closes the one the user has just
      opened or stands alone, cut after 500 characters, and other turns leave no trace. */
  lemma {:induction false} SnapshotGrows(hist: seq<Turn>, turn: Turn)
    ensures Closed(PairTurns([])) == []
    ensures var before, now := Closed(PairTurns(hist)), Closed(PairTurns(hist + [turn]));
            var text := if |turn.content| > 500 then turn.content[..500] else turn.content;
            match turn.role
            case User => now == before + [Exchange(turn.content, "")]
            case OtherRole => now == before
            case Assistant =>
              if LastSpeaker(hist).User? then before != [] && now == before[|before| - 1 := Exchange(before[|before| - 1].user, text)]
              else now == before + [Exchange("", text)]
  {
    PairNext(hist, turn);
    PairingCounts(hist);
  }

  /** The user spoke last exactly when some user turn has only other turns after it. */
  lemma {:induction false} LastSpeakerExact(hist: seq<Turn>)
    ensures LastSpeaker(hist).User? <==>
            exists i :: 0 <= i < |hist| && hist[i].role == User && forall j :: i < j < |hist| ==> hist[j].role == OtherRole
  {
    if hist != [] {
      var n := |hist| - 1;
      LastSpeakerExact(hist[..n]);
      assert forall i :: 0 <= i < n ==> hist[..n][i] == hist[i];
      if LastSpeaker(hist).User? && hist[n].role.OtherRole? {
        var i :| 0 <= i < n && hist[..n][i].role == User && forall j :: i < j < n ==> hist[..n][j].role == OtherRole;
        assert hist[i].role == User;
      }
      if i :| 0 <= i < |hist| && hist[i].role == User && forall j :: i < j < |hist| ==> hist[j].role == OtherRole {
        assert i < n ==> hist[..n][i].role == User;
      }
    }
  }

  /** Read back, one more turn brings itself if it is the user's or an answer and not empty, the answer cut. */
  lemma SpokenGrows(hist: seq<Turn>, turn: Turn)
    ensures Spoken([]) == []
    ensures Spoken(hist + [turn]) == Spoken(hist) +
              if turn.role == OtherRole || turn.content == "" then []
              else if turn.role == Assistant && |turn.content| > 500 then [Turn(Assistant, turn.content[..500])]
              else [turn]
  {
    assert (hist + [turn])[..|hist|] == hist;
  }
}
