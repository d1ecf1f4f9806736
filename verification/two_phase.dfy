/** Coordinator side of two-phase commit, as `CoordinatorImpl` runs it:
    participants are polled one after another until the first dissent, then
    every participant is told to commit or to abort, and the transaction's
    terminal state is recorded under a fresh transaction id.

    A participant is identified by its position in the coordinator's list.
    What participant `p` answers when it is polled in one round is `votes[p]`,
    an input of `Commit`; the calls the coordinator makes on its participants
    are recorded, in order, in the field `calls`. */
module TwoPhase {

  datatype RunState = DoNotCommit | Ready

  datatype CoordinatorState = INIT | WAIT | ABORT | COMMIT

  /** One call made by the coordinator on participant `participant`. */
  datatype Call = RunCall(participant: nat) | AbortCall(participant: nat) | CommitCall(participant: nat)

  /** Number of leading `Ready` votes: the position of the first dissenter,
      or `|votes|` when nobody dissents. */
  function ReadyPrefix(votes: seq<RunState>): (k: nat)
    ensures k <= |votes|
    ensures forall i :: 0 <= i < k ==> votes[i] == Ready
    ensures k < |votes| ==> votes[k] == DoNotCommit
  {
    if votes == [] then 0
    else if votes[0] == DoNotCommit then 0
    else 1 + ReadyPrefix(votes[1..])
  }

  /** The verdict of one round: `Ready` exactly when nobody dissents. */
  function Verdict(votes: seq<RunState>): (r: RunState)
    ensures r == Ready <==> forall i :: 0 <= i < |votes| ==> votes[i] == Ready
  {
    if ReadyPrefix(votes) == |votes| then Ready else DoNotCommit
  }

  /** How many participants are polled: everybody up to and including the
      first dissenter. */
  function Polled(votes: seq<RunState>): nat
  {
    if ReadyPrefix(votes) == |votes| then |votes| else ReadyPrefix(votes) + 1
  }

  /** The `run` calls of the prepare phase on participants `0 .. k-1`. */
  function Polls(k: nat): seq<Call>
  {
    if k == 0 then [] else Polls(k - 1) + [RunCall(k - 1)]
  }

  /** The directive the verdict sends to participant `p`. */
  function Directive(verdict: RunState, p: nat): Call
  {
    if verdict == Ready then CommitCall(p) else AbortCall(p)
  }

  /** The calls of the second phase on participants `0 .. n-1`. */
  function Broadcast(n: nat, verdict: RunState): seq<Call>
  {
    if n == 0 then [] else Broadcast(n - 1, verdict) + [Directive(verdict, n - 1)]
  }

  /** Every call one `commit()` makes, in order. */
  function RoundCalls(votes: seq<RunState>): seq<Call>
  {
    Polls(Polled(votes)) + Broadcast(|votes|, Verdict(votes))
  }

  /** Each participant below `k` is polled exactly once, nobody else is, and
      no directive is sent while polling. */
  lemma {:induction false} PollsCount(k: nat, c: Call)
    ensures multiset(Polls(k))[c] == if c.RunCall? && c.participant < k then 1 else 0
  {
    if k > 0 {
      PollsCount(k - 1, c);
      CountAppend(Polls(k - 1), RunCall(k - 1), c);
    }
  }

  /** Appending one call adds one to its count and leaves the others. */
  lemma CountAppend(s: seq<Call>, x: Call, c: Call)
    ensures multiset(s + [x])[c] == multiset(s)[c] + if x == c then 1 else 0
  {
    assert multiset(s + [x]) == multiset(s) + multiset{x};
  }

  /** The second phase sends each participant below `n` exactly one copy of
      the verdict's directive, and nothing else. */
  lemma {:induction false} BroadcastCount(n: nat, verdict: RunState, c: Call)
    ensures multiset(Broadcast(n, verdict))[c] ==
            if c.participant < n && c == Directive(verdict, c.participant) then 1 else 0
  {
    if n > 0 {
      BroadcastCount(n - 1, verdict, c);
      var d := Directive(verdict, n - 1);
      assert d.participant == n - 1;
      assert Broadcast(n, verdict) == Broadcast(n - 1, verdict) + [d];
      CountAppend(Broadcast(n - 1, verdict), d, c);
      if c.participant == n - 1 {
        assert c == Directive(verdict, c.participant) <==> c == d;
      } else {
        assert c != d;
      }
    } else {
      assert Broadcast(n, verdict) == [];
    }
  }

  /** What one round does to participant `p`: on `Ready` exactly one commit
      and no abort, otherwise exactly one abort and no commit (the dissenter
      and the participants never polled included); `run` reaches `p` at most
      once, and only when no earlier participant dissented. */
  lemma RoundCallsPerParticipant(votes: seq<RunState>, p: nat)
    requires p < |votes|
    ensures Verdict(votes) == Ready ==>
              multiset(RoundCalls(votes))[CommitCall(p)] == 1 &&
              multiset(RoundCalls(votes))[AbortCall(p)] == 0
    ensures Verdict(votes) == DoNotCommit ==>
              multiset(RoundCalls(votes))[AbortCall(p)] == 1 &&
              multiset(RoundCalls(votes))[CommitCall(p)] == 0
    ensures multiset(RoundCalls(votes))[RunCall(p)] ==
              if forall i :: 0 <= i < p ==> votes[i] == Ready then 1 else 0
  {
    var v := Verdict(votes);
    assert multiset(RoundCalls(votes)) == multiset(Polls(Polled(votes))) + multiset(Broadcast(|votes|, v));
    PollsCount(Polled(votes), CommitCall(p));
    PollsCount(Polled(votes), AbortCall(p));
    PollsCount(Polled(votes), RunCall(p));
    BroadcastCount(|votes|, v, CommitCall(p));
    BroadcastCount(|votes|, v, AbortCall(p));
    BroadcastCount(|votes|, v, RunCall(p));
    if p >= Polled(votes) {
      assert votes[ReadyPrefix(votes)] == DoNotCommit;
    }
  }

  /** With no participant the verdict is `Ready` and no call is made. */
  lemma NoParticipants()
    ensures Verdict([]) == Ready && RoundCalls([]) == []
  {
  }

  class Coordinator {
    /** Number of participants; participant `p` is the one at position `p`. */
    const participants: nat
    var txnState: map<nat, CoordinatorState>
    var txnId: nat
    /** Every call made on a participant, oldest first. */
    var calls: seq<Call>

    /** Between calls, exactly the ids handed out so far have a state, and
        that state is terminal. */
    ghost predicate Valid()
      reads this
    {
      && (forall t: nat :: t in txnState <==> t < txnId)
      && (forall t :: t in txnState ==> txnState[t] == ABORT || txnState[t] == COMMIT)
    }

    constructor (participants: nat)
      ensures Valid()
      ensures this.participants == participants
      ensures txnState == map[] && txnId == 0 && calls == []
    {
      this.participants := participants;
      txnState := map[];
      txnId := 0;
      calls := [];
    }

    /** One run of the protocol; `votes[p]` is what participant `p` answers
        if it is polled. */
    method Commit(votes: seq<RunState>) returns (r: RunState)
      requires Valid()
      requires |votes| == participants
      modifies this
      ensures Valid()
      ensures r == Ready <==> forall p :: 0 <= p < |votes| ==> votes[p] == Ready
      ensures txnId == old(txnId) + 1
      ensures txnState == old(txnState)[old(txnId) := if r == Ready then COMMIT else ABORT]
      ensures calls == old(calls) + RoundCalls(votes)
    {
      var current := txnId;
      txnId := txnId + 1;
      r := PrepareImpl(current, votes);
      match r {
        case DoNotCommit => AbortImpl(current);
        case Ready => CommitImpl(current);
      }
    }

    /** Prepare phase: record `INIT` for `t`, then poll in order and stop at
        the first dissent. */
    method PrepareImpl(t: nat, votes: seq<RunState>) returns (r: RunState)
      requires |votes| == participants
      modifies this`txnState, this`calls
      ensures r == Verdict(votes)
      ensures txnState == old(txnState)[t := INIT]
      ensures calls == old(calls) + Polls(Polled(votes))
    {
      var prepareOk := true;
      txnState := txnState[t := INIT];
      var p := 0;
      while p < participants
        invariant p <= ReadyPrefix(votes)
        invariant calls == old(calls) + Polls(p)
        invariant txnState == old(txnState)[t := INIT]
      {
        calls := calls + [RunCall(p)];
        if votes[p] == DoNotCommit {
          prepareOk := false;
          break;
        }
        p := p + 1;
      }
      r := if prepareOk then Ready else DoNotCommit;
    }

    /** Abort phase: every participant is told to abort, then `ABORT` is
        recorded for `t`. */
    method AbortImpl(t: nat)
      modifies this`txnState, this`calls
      ensures calls == old(calls) + Broadcast(participants, DoNotCommit)
      ensures txnState == old(txnState)[t := ABORT]
    {
      var p := 0;
      while p < participants
        invariant p <= participants
        invariant calls == old(calls) + Broadcast(p, DoNotCommit)
        invariant txnState == old(txnState)
      {
        calls := calls + [AbortCall(p)];
        p := p + 1;
      }
      txnState := txnState[t := ABORT];
    }

    /** Commit phase: every participant is told to commit, then `COMMIT` is
        recorded for `t`. */
    method CommitImpl(t: nat)
      modifies this`txnState, this`calls
      ensures calls == old(calls) + Broadcast(participants, Ready)
      ensures txnState == old(txnState)[t := COMMIT]
    {
      var p := 0;
      while p < participants
        invariant p <= participants
        invariant calls == old(calls) + Broadcast(p, Ready)
        invariant txnState == old(txnState)
      {
        calls := calls + [CommitCall(p)];
        p := p + 1;
      }
      txnState := txnState[t := COMMIT];
    }
  }

  /** The two example rounds: three participants, first all `Ready`, then
      with the second one dissenting; two transactions, two ids. */
  method ThreeParticipants()
  {
    var c := new Coordinator(3);
    var r := c.Commit([Ready, Ready, Ready]);
    assert r == Ready && c.txnState[0] == COMMIT;
    r := c.Commit([Ready, DoNotCommit, Ready]);
    assert r == DoNotCommit && c.txnState[1] == ABORT && c.txnState[0] == COMMIT;
    assert c.txnId == 2;
  }
}
