/**
  A transaction as a tree of contract calls, nested in frames that commit or
  roll back.

  Every function runs in a frame of its own, which starts with an empty asset
  map and event batch.  An ok response merges the frame into its caller's, an
  err response rolls it back, and a runtime error rolls back every frame around
  it.  A PoX function runs in a frame like any other and may call contracts
  itself.  Once its frame is closed, the node's handler applies the lock, notes
  it and leaves its records in the frame of the caller.

  The response a call carries is an input, and need not agree with how the
  function ends: what is proved holds either way.
 */
module PoxFrames {
  import opened Wire
  import opened Codecs
  import opened PoxBalances
  import opened PoxLocking
  import opened PoxRuns

  /** How a function ends: with an ok or an err response, or with a runtime error. */
  datatype Ending = ReturnsOk | ReturnsErr | Raises

  datatype Prog =
    | Public(body: seq<Prog>, ending: Ending)
    | ReadOnly(body: seq<Prog>, raises: bool)
    | Pox(call: Call, body: seq<Prog>, ending: Ending)

  /** A runtime error: in the program, in merging the stacking entries of a frame, or in the handler. */
  datatype Abort = Raised | StackingUnmerged | Refused(result: Result)

  /** `history` is the contract's own data, as the calls that changed it. */
  datatype State = State(ctx: Ctx, history: seq<Call>, abort: Option<Abort>)

  // ---------- Frames ----------

  /** Before epoch 4.0 a frame must not bring an entry its caller has; later the amounts are summed. */
  predicate Merges(under: map<Principal, u128>, inner: map<Principal, u128>, epoch: nat) {
    forall p | p in inner :: if epoch >= EPOCH_40 then Noted(under, p) + inner[p] <= MAX_U128 else p !in under
  }

  function MergedStacking(under: map<Principal, u128>, inner: map<Principal, u128>, epoch: nat): map<Principal, u128>
    requires Merges(under, inner, epoch)
  {
    map p | p in under.Keys + inner.Keys :: if p in inner then Noted(under, p) + inner[p] else under[p]
  }

  function Opened(s: State): State {
    State(s.ctx.(stacking := map[], poxActions := {}, events := []), s.history, None)
  }

  function Committed(s: State, inner: State): State {
    if !Merges(s.ctx.stacking, inner.ctx.stacking, s.ctx.epoch) then s.(abort := Some(StackingUnmerged))
    else State(
      inner.ctx.(stacking := MergedStacking(s.ctx.stacking, inner.ctx.stacking, s.ctx.epoch),
                 poxActions := s.ctx.poxActions + inner.ctx.poxActions,
                 events := s.ctx.events + inner.ctx.events),
      inner.history, None)
  }

  function Closed(s: State, inner: State, ending: Ending): State {
    if inner.abort.Some? then s.(abort := inner.abort)
    else match ending
         case ReturnsOk => Committed(s, inner)
         case ReturnsErr => s
         case Raises => s.(abort := Some(Raised))
  }

  /** A frame of a read-only function is never merged. */
  function EndingOf(call: Call, ending: Ending): Ending {
    if call.Other? && call.readOnly && ending.ReturnsOk? then ReturnsErr else ending
  }

  function Handled(s: State, call: Call): State {
    var (ctx, result) := Step(s.ctx, call);
    State(ctx, s.history, if result.Done? then None else Some(Refused(result)))
  }

  function Exec(p: Prog, s: State): State
    decreases p, 1
  {
    match p
    case Public(body, ending) => Closed(s, ExecAll(body, Opened(s)), ending)
    case ReadOnly(body, raises) => Closed(s, ExecAll(body, Opened(s)), if raises then Raises else ReturnsErr)
    case Pox(call, _, _) =>
      var returned := Returned(p, s);
      if returned.abort.Some? then returned else Handled(returned, call)
  }

  /** A PoX function up to the closing of its frame. */
  function Returned(p: Prog, s: State): State
    requires p.Pox?
    decreases p, 0
  {
    var inner := ExecAll(p.body, Opened(s));
    Closed(s, inner.(history := inner.history + [p.call]), EndingOf(p.call, p.ending))
  }

  /** Stops at the first runtime error. */
  function ExecAll(body: seq<Prog>, s: State): State
    decreases body, 0
  {
    if body == [] || s.abort.Some? then s else ExecAll(body[1..], Exec(body[0], s))
  }

  function Start(ctx: Ctx, history: seq<Call>): State { Opened(State(ctx, history, None)) }

  /** A transaction runs its entry point in one more frame, which a runtime error rolls back. */
  function Transaction(p: Prog, ctx: Ctx, history: seq<Call>): State {
    var end := Exec(p, Start(ctx, history));
    if end.abort.None? then end else Start(ctx, history).(abort := end.abort)
  }

  // ---------- Accounts ----------

  predicate ConcernsAny(body: seq<Prog>, q: Principal)
    decreases body, 0
  {
    body != [] && (TreeConcerns(body[0], q) || ConcernsAny(body[1..], q))
  }

  predicate TreeConcerns(p: Prog, q: Principal)
    decreases p, 1
  {
    ConcernsAny(p.body, q) || (p.Pox? && Concerns(p.call, q))
  }

  /** Nothing but the account's lock may differ, and that only if it is said to be touched. */
  predicate Conserves(before: Ctx, after: Ctx, q: Principal, touched: bool) {
    && after.chain == before.chain && after.epoch == before.epoch
    && Total(AccountOf(after.accounts, q)) == Total(AccountOf(before.accounts, q))
    && (!touched ==> AccountOf(after.accounts, q) == AccountOf(before.accounts, q))
  }

  lemma ReturnedConserves(p: Prog, s: State, q: Principal)
    requires p.Pox?
    ensures Conserves(s.ctx, Returned(p, s).ctx, q, ConcernsAny(p.body, q))
    decreases p, 0
  {
    ExecAllConserves(p.body, Opened(s), q);
  }

  lemma {:induction false} ExecConserves(p: Prog, s: State, q: Principal)
    ensures Conserves(s.ctx, Exec(p, s).ctx, q, TreeConcerns(p, q))
    decreases p, 1
  {
    match p
    case Pox(call, _, _) =>
      ReturnedConserves(p, s, q);
      StepConserves(Returned(p, s).ctx, call, q);
    case _ => ExecAllConserves(p.body, Opened(s), q);
  }

  lemma {:induction false} ExecAllConserves(body: seq<Prog>, s: State, q: Principal)
    ensures Conserves(s.ctx, ExecAll(body, s).ctx, q, ConcernsAny(body, q))
    decreases body, 0
  {
    if body != [] && s.abort.None? {
      ExecConserves(body[0], s, q);
      ExecAllConserves(body[1..], Exec(body[0], s), q);
    }
  }

  /** Over every tree of calls each account's total is constant, and an account no call concerns is untouched. */
  lemma TransactionConserves(p: Prog, ctx: Ctx, history: seq<Call>, q: Principal)
    ensures Conserves(ctx, Transaction(p, ctx, history).ctx, q, TreeConcerns(p, q))
  {
    ExecConserves(p, Start(ctx, history), q);
  }

  // ---------- Calls that err ----------

  /** The handler at work on a call. */
  datatype Visit = Visit(ctx: Ctx, call: Call)

  function Visits(p: Prog, s: State): seq<Visit>
    decreases p, 1
  {
    match p
    case Pox(call, body, _) =>
      VisitsAll(body, Opened(s)) + if Returned(p, s).abort.None? then [Visit(Returned(p, s).ctx, call)] else []
    case _ => VisitsAll(p.body, Opened(s))
  }

  function VisitsAll(body: seq<Prog>, s: State): seq<Visit>
    decreases body, 0
  {
    if body == [] || s.abort.Some? then [] else Visits(body[0], s) + VisitsAll(body[1..], Exec(body[0], s))
  }

  predicate Errs(v: Visit) { !Step(v.ctx, v.call).1.Done? }

  /** The one error that ends a tree is that of its last call. */
  predicate ErrsLast(visits: seq<Visit>, i: nat, abort: Option<Abort>)
    requires i < |visits|
  {
    Errs(visits[i]) ==> i == |visits| - 1 && abort == Some(Refused(Step(visits[i].ctx, visits[i].call).1))
  }

  lemma {:induction false} ErrorSpreads(p: Prog, s: State, i: nat)
    requires s.abort.None? && i < |Visits(p, s)|
    ensures ErrsLast(Visits(p, s), i, Exec(p, s).abort)
    decreases p, 1
  {
    if i < |VisitsAll(p.body, Opened(s))| {
      ErrorSpreadsAll(p.body, Opened(s), i);
    }
  }

  lemma {:induction false} ErrorSpreadsAll(body: seq<Prog>, s: State, i: nat)
    requires s.abort.None? && i < |VisitsAll(body, s)|
    ensures ErrsLast(VisitsAll(body, s), i, ExecAll(body, s).abort)
    decreases body, 0
  {
    var first, t := Visits(body[0], s), Exec(body[0], s);
    if i < |first| {
      ErrorSpreads(body[0], s, i);
    } else {
      ErrorSpreadsAll(body[1..], t, i - |first|);
    }
  }

  /**
    Wherever in the tree a call errs, no call follows it, the transaction reports its error, and
    accounts, contract data, asset map and events are as at the start, even if the call had stored a lock.
   */
  lemma ErringCallIsUndone(p: Prog, ctx: Ctx, history: seq<Call>, i: nat)
    requires i < |Visits(p, Start(ctx, history))| && Errs(Visits(p, Start(ctx, history))[i])
    ensures var visits := Visits(p, Start(ctx, history));
            && i == |visits| - 1
            && Transaction(p, ctx, history) ==
                 State(ctx.(stacking := map[], poxActions := {}, events := []), history,
                       Some(Refused(Step(visits[i].ctx, visits[i].call).1)))
  {
    ErrorSpreads(p, Start(ctx, history), i);
  }

  // ---------- Records ----------

  predicate IsGated(call: Call) { call.Unstake? || call.Gated? }

  function SenderOf(call: Call): set<Principal> {
    if IsGated(call) && call.sender.Some? then {call.sender.value} else {}
  }

  /** The senders of the gated calls, failed or not, all of whose enclosing functions return ok. */
  function Kept(p: Prog): set<Principal>
    decreases p, 1
  {
    match p
    case Public(body, ending) => if ending.ReturnsOk? then KeptAll(body) else {}
    case ReadOnly(_, _) => {}
    case Pox(call, body, ending) =>
      (if EndingOf(call, ending).ReturnsOk? then KeptAll(body) else {}) + SenderOf(call)
  }

  function KeptAll(body: seq<Prog>): set<Principal>
    decreases body, 0
  {
    if body == [] then {} else Kept(body[0]) + KeptAll(body[1..])
  }

  /** The calls whose changes are kept: those that return ok inside functions that all do. */
  function Changes(p: Prog): seq<Call>
    decreases p, 1
  {
    match p
    case Public(body, ending) => if ending.ReturnsOk? then ChangesAll(body) else []
    case ReadOnly(_, _) => []
    case Pox(call, body, ending) => if EndingOf(call, ending).ReturnsOk? then ChangesAll(body) + [call] else []
  }

  function ChangesAll(body: seq<Prog>): seq<Call>
    decreases body, 0
  {
    if body == [] then [] else Changes(body[0]) + ChangesAll(body[1..])
  }

  lemma HandledRecords(s: State, call: Call)
    requires Handled(s, call).abort.None?
    ensures Handled(s, call).ctx.poxActions == s.ctx.poxActions + SenderOf(call)
    ensures Handled(s, call).history == s.history
  {
    RecordIff(s.ctx, call);
  }

  lemma {:induction false} ExecRecords(p: Prog, s: State)
    requires s.abort.None? && Exec(p, s).abort.None?
    ensures Exec(p, s).ctx.poxActions == s.ctx.poxActions + Kept(p)
    ensures Exec(p, s).history == s.history + Changes(p)
    decreases p, 1
  {
    var inner := ExecAll(p.body, Opened(s));
    assert inner.abort.None?;
    ExecAllRecords(p.body, Opened(s));
    if p.Pox? {
      HandledRecords(Returned(p, s), p.call);
    }
  }

  lemma {:induction false} ExecAllRecords(body: seq<Prog>, s: State)
    requires s.abort.None? && ExecAll(body, s).abort.None?
    ensures ExecAll(body, s).ctx.poxActions == s.ctx.poxActions + KeptAll(body)
    ensures ExecAll(body, s).history == s.history + ChangesAll(body)
    decreases body, 0
  {
    if body != [] {
      ExecRecords(body[0], s);
      ExecAllRecords(body[1..], Exec(body[0], s));
    }
  }

  /**
    Whatever the tree of calls, a principal is on record at the end exactly when the transaction had
    no runtime error and the principal sent a gated call, failed or not, such that every function between
    that call and the entry point returns ok.  The contract's data has the changes of the calls that
    returned ok in such functions, and of no others.
   */
  lemma RecordedIff(p: Prog, ctx: Ctx, history: seq<Call>, who: Principal)
    ensures var end := Transaction(p, ctx, history);
            && (who in end.ctx.poxActions <==> end.abort.None? && who in Kept(p))
            && end.history == if end.abort.None? then history + Changes(p) else history
  {
    var start := Start(ctx, history);
    if Exec(p, start).abort.None? {
      ExecRecords(p, start);
    }
  }

  lemma {:induction false} ChangesKept(p: Prog, i: nat)
    requires i < |Changes(p)|
    ensures SenderOf(Changes(p)[i]) <= Kept(p)
    decreases p, 1
  {
    if i < |ChangesAll(p.body)| {
      ChangesAllKept(p.body, i);
    }
  }

  lemma {:induction false} ChangesAllKept(body: seq<Prog>, i: nat)
    requires i < |ChangesAll(body)|
    ensures SenderOf(ChangesAll(body)[i]) <= KeptAll(body)
    decreases body, 0
  {
    if i < |Changes(body[0])| {
      ChangesKept(body[0], i);
    } else {
      ChangesAllKept(body[1..], i - |Changes(body[0])|);
    }
  }

  datatype PoxCondition = NotPerformed | MaybePerformed | Performed

  predicate Check(c: PoxCondition, performed: bool) {
    match c
    case NotPerformed => !performed
    case MaybePerformed => true
    case Performed => performed
  }

  /** A gated change that survives the transaction is on record for its sender, whose `NotPerformed` condition fails. */
  lemma SurvivingChangeIsRecorded(p: Prog, ctx: Ctx, history: seq<Call>, i: nat)
    requires |history| <= i < |Transaction(p, ctx, history).history|
    ensures var end := Transaction(p, ctx, history);
            var call := end.history[i];
            && SenderOf(call) <= end.ctx.poxActions
            && (IsGated(call) && call.sender.Some? ==> !Check(NotPerformed, call.sender.value in end.ctx.poxActions))
  {
    var end := Transaction(p, ctx, history);
    RecordedIff(p, ctx, history, 0);
    var call := end.history[i];
    assert call == Changes(p)[i - |history|];
    ChangesKept(p, i - |history|);
    if IsGated(call) && call.sender.Some? {
      assert call.sender.value in SenderOf(call);
      RecordedIff(p, ctx, history, call.sender.value);
    }
  }

  /** The senders of the calls that concern an account. */
  function SendersFor(p: Prog, q: Principal): set<Principal>
    decreases p, 1
  {
    SendersForAll(p.body, q) + if p.Pox? && Concerns(p.call, q) then SenderOf(p.call) else {}
  }

  function SendersForAll(body: seq<Prog>, q: Principal): set<Principal>
    decreases body, 0
  {
    if body == [] then {} else SendersFor(body[0], q) + SendersForAll(body[1..], q)
  }

  /** Every call that concerns the account is a gated one of a known sender. */
  predicate OnlyGated(p: Prog, q: Principal)
    decreases p, 1
  {
    OnlyGatedAll(p.body, q) && (p.Pox? && Concerns(p.call, q) ==> SenderOf(p.call) != {})
  }

  predicate OnlyGatedAll(body: seq<Prog>, q: Principal)
    decreases body, 0
  {
    body == [] || (OnlyGated(body[0], q) && OnlyGatedAll(body[1..], q))
  }

  predicate Changed(s: State, t: State, q: Principal) {
    AccountOf(t.ctx.accounts, q) != AccountOf(s.ctx.accounts, q)
  }

  lemma {:induction false} ExecRecordsChange(p: Prog, s: State, q: Principal)
    requires s.abort.None? && Exec(p, s).abort.None? && OnlyGated(p, q)
    ensures s.ctx.poxActions <= Exec(p, s).ctx.poxActions
    ensures Changed(s, Exec(p, s), q) ==> SendersFor(p, q) * Exec(p, s).ctx.poxActions != {}
    decreases p, 1
  {
    var inner := ExecAll(p.body, Opened(s));
    assert inner.abort.None?;
    ExecAllRecordsChange(p.body, Opened(s), q);
    if p.Pox? {
      var returned := Returned(p, s);
      HandledRecords(returned, p.call);
      StepConserves(returned.ctx, p.call, q);
      if Changed(s, returned, q) {
        var who :| who in SendersForAll(p.body, q) * inner.ctx.poxActions;
        assert who in SendersFor(p, q) * Exec(p, s).ctx.poxActions;
      } else if Concerns(p.call, q) {
        var who :| who in SenderOf(p.call);
        assert who in SendersFor(p, q) * Exec(p, s).ctx.poxActions;
      }
    } else if Changed(s, Exec(p, s), q) {
      var who :| who in SendersForAll(p.body, q) * inner.ctx.poxActions;
      assert who in SendersFor(p, q) * Exec(p, s).ctx.poxActions;
    }
  }

  lemma {:induction false} ExecAllRecordsChange(body: seq<Prog>, s: State, q: Principal)
    requires s.abort.None? && ExecAll(body, s).abort.None? && OnlyGatedAll(body, q)
    ensures s.ctx.poxActions <= ExecAll(body, s).ctx.poxActions
    ensures Changed(s, ExecAll(body, s), q) ==> SendersForAll(body, q) * ExecAll(body, s).ctx.poxActions != {}
    decreases body, 0
  {
    if body != [] {
      var t, end := Exec(body[0], s), ExecAll(body, s);
      ExecRecordsChange(body[0], s, q);
      ExecAllRecordsChange(body[1..], t, q);
      if Changed(s, t, q) {
        var who :| who in SendersFor(body[0], q) * t.ctx.poxActions;
        assert who in SendersForAll(body, q) * end.ctx.poxActions;
      } else if Changed(t, end, q) {
        var who :| who in SendersForAll(body[1..], q) * end.ctx.poxActions;
        assert who in SendersForAll(body, q) * end.ctx.poxActions;
      }
    }
  }

  /**
    Whatever the tree, if only gated calls concern an account and its lock is another at the end, the
    sender of one of those calls is on record.
   */
  lemma AccountChangeIsRecorded(p: Prog, ctx: Ctx, history: seq<Call>, q: Principal)
    requires OnlyGated(p, q)
    ensures var end := Transaction(p, ctx, history);
            AccountOf(end.ctx.accounts, q) != AccountOf(ctx.accounts, q) ==> SendersFor(p, q) * end.ctx.poxActions != {}
  {
    var start := Start(ctx, history);
    if Exec(p, start).abort.None? {
      ExecRecordsChange(p, start, q);
    }
  }

  /** A program inside functions that end in these ways, the outermost first. */
  function Nested(endings: seq<Ending>, p: Prog): Prog {
    if endings == [] then p else Public([Nested(endings[1..], p)], endings[0])
  }

  predicate AllOk(endings: seq<Ending>) {
    forall i | 0 <= i < |endings| :: endings[i].ReturnsOk?
  }

  /** A gated call that the contract refuses. */
  predicate FailedAttempt(p: Prog, sender: Principal) {
    && p.Pox? && p.body == [] && p.ending.ReturnsErr?
    && IsGated(p.call) && p.call.sender == Some(sender) && (p.call.Unstake? ==> p.call.reply.ContractError?)
  }

  lemma AllOkSplit(endings: seq<Ending>)
    requires endings != []
    ensures AllOk(endings) <==> endings[0].ReturnsOk? && AllOk(endings[1..])
  {
    assert endings == [endings[0]] + endings[1..];
    if endings[0].ReturnsOk? && AllOk(endings[1..]) {
      assert forall i | 0 < i < |endings| :: endings[i] == endings[1..][i - 1];
    }
  }

  lemma {:induction false} NestedKept(endings: seq<Ending>, p: Prog, sender: Principal)
    requires FailedAttempt(p, sender)
    ensures Kept(Nested(endings, p)) == if AllOk(endings) then {sender} else {}
    ensures Changes(Nested(endings, p)) == []
    decreases endings
  {
    if endings != [] {
      var inner := Nested(endings[1..], p);
      NestedKept(endings[1..], p, sender);
      AllOkSplit(endings);
      assert [inner][1..] == [];
      assert KeptAll([inner]) == Kept(inner) + KeptAll([]);
      assert ChangesAll([inner]) == Changes(inner) + ChangesAll([]);
    }
  }

  lemma {:induction false} NestedRuns(endings: seq<Ending>, p: Prog, sender: Principal, s: State)
    requires FailedAttempt(p, sender) && s.abort.None?
    ensures Exec(Nested(endings, p), s).ctx.stacking == s.ctx.stacking
    ensures AllOk(endings) ==> Exec(Nested(endings, p), s).abort.None?
    decreases endings
  {
    if endings == [] {
      assert ExecAll([], Opened(s)) == Opened(s);
    } else {
      var inner := Nested(endings[1..], p);
      NestedRuns(endings[1..], p, sender, Opened(s));
      AllOkSplit(endings);
      assert [inner][1..] == [];
      assert ExecAll([inner], Opened(s)) == ExecAll([], Exec(inner, Opened(s))) == Exec(inner, Opened(s));
      assert Merges(s.ctx.stacking, map[], s.ctx.epoch);
      assert MergedStacking(s.ctx.stacking, map[], s.ctx.epoch) == s.ctx.stacking;
    }
  }

  /** At any depth, a failed attempt changes nothing and is on record exactly when every enclosing function returns ok. */
  lemma FailedAttemptIsNoted(endings: seq<Ending>, p: Prog, sender: Principal, ctx: Ctx, history: seq<Call>)
    requires FailedAttempt(p, sender)
    ensures var end := Transaction(Nested(endings, p), ctx, history);
            end.history == history && (sender in end.ctx.poxActions <==> AllOk(endings))
  {
    NestedKept(endings, p, sender);
    NestedRuns(endings, p, sender, Start(ctx, history));
    RecordedIff(Nested(endings, p), ctx, history, sender);
  }

  // ---------- Amounts noted ----------

  /** `share` for each staking or updating call on the account. */
  function Shares(p: Prog, q: Principal, share: nat): nat
    decreases p, 1
  {
    SharesAll(p.body, q, share) + if p.Pox? && NotesLock(p.call, q) then share else 0
  }

  function SharesAll(body: seq<Prog>, q: Principal, share: nat): nat
    decreases body, 0
  {
    if body == [] then 0 else Shares(body[0], q, share) + SharesAll(body[1..], q, share)
  }

  lemma {:induction false} TreeSharesMultiply(p: Prog, q: Principal, share: nat)
    ensures Shares(p, q, share) == Shares(p, q, 1) * share
    decreases p, 1
  {
    TreeSharesMultiplyAll(p.body, q, share);
  }

  lemma {:induction false} TreeSharesMultiplyAll(body: seq<Prog>, q: Principal, share: nat)
    ensures SharesAll(body, q, share) == SharesAll(body, q, 1) * share
    decreases body, 0
  {
    if body != [] {
      TreeSharesMultiply(body[0], q, share);
      TreeSharesMultiplyAll(body[1..], q, share);
    }
  }

  function TotalIn(ctx: Ctx, q: Principal): nat { Total(AccountOf(ctx.accounts, q)) }

  lemma ClosedNotes(s: State, inner: State, ending: Ending, q: Principal)
    requires s.ctx.epoch >= EPOCH_40
    ensures Noted(Closed(s, inner, ending).ctx.stacking, q) <= Noted(s.ctx.stacking, q) + Noted(inner.ctx.stacking, q)
  {
  }

  lemma ReturnedNotes(p: Prog, s: State, q: Principal)
    requires p.Pox? && s.ctx.epoch >= EPOCH_40
    ensures Noted(Returned(p, s).ctx.stacking, q) <= Noted(s.ctx.stacking, q) + SharesAll(p.body, q, TotalIn(s.ctx, q))
    decreases p, 0
  {
    var inner := ExecAll(p.body, Opened(s));
    ExecAllNotes(p.body, Opened(s), q);
    ClosedNotes(s, inner.(history := inner.history + [p.call]), EndingOf(p.call, p.ending), q);
  }

  lemma {:induction false} ExecNotes(p: Prog, s: State, q: Principal)
    requires s.ctx.epoch >= EPOCH_40
    ensures Noted(Exec(p, s).ctx.stacking, q) <= Noted(s.ctx.stacking, q) + Shares(p, q, TotalIn(s.ctx, q))
    decreases p, 1
  {
    if p.Pox? {
      ReturnedNotes(p, s, q);
      ReturnedConserves(p, s, q);
      StepNotes(Returned(p, s).ctx, p.call, q);
    } else {
      var inner := ExecAll(p.body, Opened(s));
      ExecAllNotes(p.body, Opened(s), q);
      ClosedNotes(s, inner, if p.ReadOnly? then (if p.raises then Raises else ReturnsErr) else p.ending, q);
    }
  }

  lemma {:induction false} ExecAllNotes(body: seq<Prog>, s: State, q: Principal)
    requires s.ctx.epoch >= EPOCH_40
    ensures Noted(ExecAll(body, s).ctx.stacking, q) <= Noted(s.ctx.stacking, q) + SharesAll(body, q, TotalIn(s.ctx, q))
    decreases body, 0
  {
    if body != [] && s.abort.None? {
      ExecNotes(body[0], s, q);
      ExecConserves(body[0], s, q);
      ExecAllNotes(body[1..], Exec(body[0], s), q);
    }
  }

  /** The amounts of the staking and updating calls on an account that are in functions which all return ok. */
  function KeptNotes(p: Prog, q: Principal): nat
    decreases p, 1
  {
    match p
    case Public(body, ending) => if ending.ReturnsOk? then KeptNotesAll(body, q) else 0
    case ReadOnly(_, _) => 0
    case Pox(call, body, ending) =>
      (if EndingOf(call, ending).ReturnsOk? then KeptNotesAll(body, q) else 0)
      + if NotesLock(call, q) then ReplyOf(call).amount else 0
  }

  function KeptNotesAll(body: seq<Prog>, q: Principal): nat
    decreases body, 0
  {
    if body == [] then 0 else KeptNotes(body[0], q) + KeptNotesAll(body[1..], q)
  }

  function KeptEvents(p: Prog): seq<LockEvent>
    decreases p, 1
  {
    match p
    case Public(body, ending) => if ending.ReturnsOk? then KeptEventsAll(body) else []
    case ReadOnly(_, _) => []
    case Pox(call, body, ending) => (if EndingOf(call, ending).ReturnsOk? then KeptEventsAll(body) else []) + EventsOf(call)
  }

  function KeptEventsAll(body: seq<Prog>): seq<LockEvent>
    decreases body, 0
  {
    if body == [] then [] else KeptEvents(body[0]) + KeptEventsAll(body[1..])
  }

  lemma MergedNotes(under: map<Principal, u128>, inner: map<Principal, u128>, epoch: nat, q: Principal)
    requires epoch >= 40 && Merges(under, inner, epoch)
    ensures Noted(MergedStacking(under, inner, epoch), q) == Noted(under, q) + Noted(inner, q)
  {
  }

  lemma {:induction false} ExecNotesExactly(p: Prog, s: State, q: Principal)
    requires s.ctx.epoch >= 40 && s.abort.None? && Exec(p, s).abort.None?
    ensures Noted(Exec(p, s).ctx.stacking, q) == Noted(s.ctx.stacking, q) + KeptNotes(p, q)
    decreases p, 1
  {
    var inner := ExecAll(p.body, Opened(s));
    assert inner.abort.None?;
    ExecAllNotesExactly(p.body, Opened(s), q);
    if Merges(s.ctx.stacking, inner.ctx.stacking, s.ctx.epoch) {
      MergedNotes(s.ctx.stacking, inner.ctx.stacking, s.ctx.epoch, q);
    }
    if p.Pox? {
      ReturnedConserves(p, s, q);
      StepNotesExactly(Returned(p, s).ctx, p.call, q);
    }
  }

  lemma {:induction false} ExecAllNotesExactly(body: seq<Prog>, s: State, q: Principal)
    requires s.ctx.epoch >= 40 && s.abort.None? && ExecAll(body, s).abort.None?
    ensures Noted(ExecAll(body, s).ctx.stacking, q) == Noted(s.ctx.stacking, q) + KeptNotesAll(body, q)
    decreases body, 0
  {
    if body != [] {
      ExecNotesExactly(body[0], s, q);
      ExecConserves(body[0], s, q);
      ExecAllNotesExactly(body[1..], Exec(body[0], s), q);
    }
  }

  lemma ClosedEvents(s: State, inner: State, ending: Ending)
    requires inner.abort.None? && Closed(s, inner, ending).abort.None?
    ensures Closed(s, inner, ending).ctx.events == s.ctx.events + if ending.ReturnsOk? then inner.ctx.events else []
  {
    assert s.ctx.events + [] == s.ctx.events;
  }

  lemma EventsTogether(a: seq<LockEvent>, b: seq<LockEvent>, c: seq<LockEvent>)
    ensures (a + b) + c == a + (b + c)
  {
  }

  lemma {:induction false} ExecEmits(p: Prog, s: State)
    requires s.ctx.epoch >= 40 && s.ctx.chain.v1 <= s.ctx.chain.burn && s.abort.None? && Exec(p, s).abort.None?
    ensures Exec(p, s).ctx.events == s.ctx.events + KeptEvents(p)
    decreases p, 1
  {
    var inner := ExecAll(p.body, Opened(s));
    assert inner.abort.None?;
    ExecAllEmits(p.body, Opened(s));
    assert inner.ctx.events == KeptEventsAll(p.body);
    match p
    case Public(_, ending) => ClosedEvents(s, inner, ending);
    case ReadOnly(_, raises) => ClosedEvents(s, inner, if raises then Raises else ReturnsErr);
    case Pox(call, body, ending) => PoxEmits(p, s);
  }

  lemma PoxEmits(p: Prog, s: State)
    requires p.Pox? && s.ctx.epoch >= 40 && s.ctx.chain.v1 <= s.ctx.chain.burn && s.abort.None? && Exec(p, s).abort.None?
    requires ExecAll(p.body, Opened(s)).abort.None? && ExecAll(p.body, Opened(s)).ctx.events == KeptEventsAll(p.body)
    ensures Exec(p, s).ctx.events == s.ctx.events + KeptEvents(p)
    decreases p, 0
  {
    var inner, ending := ExecAll(p.body, Opened(s)), EndingOf(p.call, p.ending);
    ClosedEvents(s, inner.(history := inner.history + [p.call]), ending);
    ReturnedConserves(p, s, 0);
    StepEmits(Returned(p, s).ctx, p.call);
    EventsTogether(s.ctx.events, if ending.ReturnsOk? then KeptEventsAll(p.body) else [], EventsOf(p.call));
  }

  lemma {:induction false} ExecAllEmits(body: seq<Prog>, s: State)
    requires s.ctx.epoch >= 40 && s.ctx.chain.v1 <= s.ctx.chain.burn && s.abort.None? && ExecAll(body, s).abort.None?
    ensures ExecAll(body, s).ctx.events == s.ctx.events + KeptEventsAll(body)
    decreases body, 0
  {
    if body != [] {
      ExecEmits(body[0], s);
      ExecConserves(body[0], s, 0);
      ExecAllEmits(body[1..], Exec(body[0], s));
    }
  }

  /**
    From epoch 4.0 on, a transaction without a runtime error has noted for each account exactly the
    amounts of the staking and updating calls that are kept, and emitted exactly their events, in order.
   */
  lemma NotedAndEmitted(p: Prog, ctx: Ctx, history: seq<Call>, q: Principal)
    requires ctx.epoch >= 40 && ctx.chain.v1 <= ctx.chain.burn
    ensures var end := Transaction(p, ctx, history);
            && Noted(end.ctx.stacking, q) == (if end.abort.None? then KeptNotes(p, q) else 0)
            && end.ctx.events == if end.abort.None? then KeptEvents(p) else []
  {
    var start := Start(ctx, history);
    if Exec(p, start).abort.None? {
      ExecNotesExactly(p, start, q);
      ExecEmits(p, start);
    }
  }

  predicate Overflowed(abort: Option<Abort>) {
    abort == Some(StackingUnmerged) || abort == Some(Refused(Error(AssetMapOverflow)))
  }

  /** A merge that fails names the account whose amounts do not fit. */
  lemma UnmergedNames(s: State, inner: State, ending: Ending) returns (q: Principal)
    requires s.ctx.epoch >= EPOCH_40 && s.abort.None? && inner.abort.None? && Overflowed(Closed(s, inner, ending).abort)
    ensures Noted(s.ctx.stacking, q) + Noted(inner.ctx.stacking, q) > MAX_U128
  {
    q :| q in inner.ctx.stacking && Noted(s.ctx.stacking, q) + inner.ctx.stacking[q] > MAX_U128;
  }

  lemma {:induction false} ClosedOverflow(body: seq<Prog>, s: State, ending: Ending, history: seq<Call>) returns (q: Principal)
    requires s.abort.None? && s.ctx.epoch >= EPOCH_40
    requires Overflowed(Closed(s, ExecAll(body, Opened(s)).(history := history), ending).abort)
    ensures Noted(s.ctx.stacking, q) + SharesAll(body, q, TotalIn(s.ctx, q)) > MAX_U128
    decreases body, 1
  {
    var inner := ExecAll(body, Opened(s));
    if inner.abort.Some? {
      q := ExecAllOverflow(body, Opened(s));
    } else {
      q := UnmergedNames(s, inner.(history := history), ending);
      ExecAllNotes(body, Opened(s), q);
    }
  }

  lemma {:induction false} ExecOverflow(p: Prog, s: State) returns (q: Principal)
    requires s.abort.None? && s.ctx.epoch >= EPOCH_40 && Overflowed(Exec(p, s).abort)
    ensures Noted(s.ctx.stacking, q) + Shares(p, q, TotalIn(s.ctx, q)) > MAX_U128
    decreases p, 2
  {
    var inner := ExecAll(p.body, Opened(s));
    match p
    case Public(body, ending) => q := ClosedOverflow(body, s, ending, inner.history);
    case ReadOnly(body, raises) => q := ClosedOverflow(body, s, if raises then Raises else ReturnsErr, inner.history);
    case Pox(call, body, ending) =>
      if Returned(p, s).abort.Some? {
        q := ClosedOverflow(body, s, EndingOf(call, ending), inner.history + [call]);
      } else {
        q := HandlerOverflow(p, s);
      }
  }

  lemma HandlerOverflow(p: Prog, s: State) returns (q: Principal)
    requires p.Pox? && s.ctx.epoch >= EPOCH_40 && Returned(p, s).abort.None?
    requires Overflowed(Handled(Returned(p, s), p.call).abort)
    ensures Noted(s.ctx.stacking, q) + Shares(p, q, TotalIn(s.ctx, q)) > MAX_U128
  {
    var ctx := Returned(p, s).ctx;
    FailureKeepsAccounts(ctx, p.call);
    q := ReplyOf(p.call).staker;
    assert NotesLock(p.call, q);
    ReturnedNotes(p, s, q);
    ReturnedConserves(p, s, q);
  }

  lemma {:induction false} ExecAllOverflow(body: seq<Prog>, s: State) returns (q: Principal)
    requires s.abort.None? && s.ctx.epoch >= EPOCH_40 && Overflowed(ExecAll(body, s).abort)
    ensures Noted(s.ctx.stacking, q) + SharesAll(body, q, TotalIn(s.ctx, q)) > MAX_U128
    decreases body, 0
  {
    var t := Exec(body[0], s);
    assert ExecAll(body, s) == ExecAll(body[1..], t);
    if t.abort.Some? {
      q := ExecOverflow(body[0], s);
    } else {
      ExecConserves(body[0], s, 0);
      q := ExecAllOverflow(body[1..], t);
      ExecNotes(body[0], s, q);
      ExecConserves(body[0], s, q);
    }
  }

  /**
    From epoch 4.0 on, amounts overflow the asset map, in the handler or in merging a frame, only in a
    tree with so many staking and updating calls on one account that its total, taken once for each,
    exceeds what can be noted.
   */
  lemma OverflowNeedsManyCalls(p: Prog, ctx: Ctx, history: seq<Call>) returns (q: Principal)
    requires ctx.epoch >= EPOCH_40 && Overflowed(Transaction(p, ctx, history).abort)
    ensures Shares(p, q, 1) * TotalIn(ctx, q) > MAX_U128
  {
    q := ExecOverflow(p, Start(ctx, history));
    TreeSharesMultiply(p, q, TotalIn(ctx, q));
  }

  // ---------- The stack of frames ----------

  /** What to restore on rolling back, and what the frame has noted, recorded and emitted. */
  datatype Frame = Frame(
    accounts: map<Principal, Balance>, history: seq<Call>,
    stacking: map<Principal, u128>, poxActions: set<Principal>, events: seq<LockEvent>)

  class FrameStack {
    var accounts: map<Principal, Balance>
    var history: seq<Call>
    var frames: seq<Frame>
    const chain: Chain
    const epoch: nat

    constructor (ctx: Ctx, history: seq<Call>)
      ensures Valid() && frames == [Frame(ctx.accounts, history, map[], {}, [])]
      ensures Current() == Start(ctx, history)
    {
      accounts, this.history, chain, epoch := ctx.accounts, history, ctx.chain, ctx.epoch;
      frames := [Frame(ctx.accounts, history, map[], {}, [])];
    }

    ghost predicate Valid()
      reads this
    {
      frames != []
    }

    function Top(): Frame
      requires frames != []
      reads this
    {
      frames[|frames| - 1]
    }

    function Context(): Ctx
      requires frames != []
      reads this
    {
      Ctx(accounts, Top().stacking, Top().poxActions, Top().events, chain, epoch)
    }

    ghost function Current(): State
      requires frames != []
      reads this
    {
      State(Context(), history, None)
    }

    /** The state is `s` and only the entries of the top frame differ from those in `before`. */
    ghost predicate Reached(before: seq<Frame>, s: State)
      requires before != []
      reads this
    {
      var top := before[|before| - 1];
      && accounts == s.ctx.accounts && history == s.history
      && frames == before[|before| - 1 := Frame(top.accounts, top.history, s.ctx.stacking, s.ctx.poxActions, s.ctx.events)]
      && s.ctx.chain == chain && s.ctx.epoch == epoch
    }

    method Begin()
      requires Valid()
      modifies this`frames
      ensures frames == old(frames) + [Frame(accounts, history, map[], {}, [])]
      ensures Valid() && Current() == Opened(old(Current()))
    {
      frames := frames + [Frame(accounts, history, map[], {}, [])];
    }

    /** Merges the top frame into the one below; if the stacking entries cannot be merged, the changes are undone. */
    method Commit() returns (ok: bool)
      requires Valid() && |frames| > 1
      modifies this
      ensures var n := |old(frames)|;
              var top, under := old(frames)[n - 1], old(frames)[n - 2];
              && ok == Merges(under.stacking, top.stacking, epoch)
              && (ok ==> accounts == old(accounts) && history == old(history)
                         && frames == old(frames)[..n - 2] +
                              [Frame(under.accounts, under.history, MergedStacking(under.stacking, top.stacking, epoch),
                                     under.poxActions + top.poxActions, under.events + top.events)])
              && (!ok ==> accounts == top.accounts && history == top.history && frames == old(frames)[..n - 1])
    {
      var n := |frames|;
      var top, under := frames[n - 1], frames[n - 2];
      ok := Merges(under.stacking, top.stacking, epoch);
      if ok {
        frames := frames[..n - 2] +
          [Frame(under.accounts, under.history, MergedStacking(under.stacking, top.stacking, epoch),
                 under.poxActions + top.poxActions, under.events + top.events)];
      } else {
        accounts, history, frames := top.accounts, top.history, frames[..n - 1];
      }
    }

    method RollBack()
      requires Valid() && |frames| > 1
      modifies this
      ensures frames == old(frames)[..|old(frames)| - 1]
      ensures accounts == old(Top()).accounts && history == old(Top()).history
    {
      accounts, history := Top().accounts, Top().history;
      frames := frames[..|frames| - 1];
    }

    /** Closes the top frame by how its function ended. */
    method Close(abort: Option<Abort>, ending: Ending, ghost before: seq<Frame>, ghost s: State, ghost inner: State)
      returns (after: Option<Abort>)
      requires Valid() && before != [] && s.abort.None? && inner.abort == abort
      requires s == State(Ctx(s.ctx.accounts, before[|before| - 1].stacking, before[|before| - 1].poxActions,
                              before[|before| - 1].events, chain, epoch), s.history, None)
      requires Reached(before + [Frame(s.ctx.accounts, s.history, map[], {}, [])], inner)
      modifies this
      ensures Valid() && Reached(before, Closed(s, inner, ending)) && after == Closed(s, inner, ending).abort
    {
      assert frames[|frames| - 2] == before[|before| - 1];
      assert frames[..|frames| - 1] == before;
      if abort.None? && ending.ReturnsOk? {
        var ok := Commit();
        return if ok then None else Some(StackingUnmerged);
      }
      RollBack();
      return if abort.Some? then abort else if ending.Raises? then Some(Raised) else None;
    }

    /** Lets the node act on a call that has returned. */
    method Handle(call: Call) returns (abort: Option<Abort>)
      requires Valid()
      modifies this
      ensures Valid() && Reached(old(frames), Handled(old(Current()), call)) && abort == Handled(old(Current()), call).abort
    {
      var node := new GlobalContext(Context());
      var result := node.HandleContractCall(call);
      accounts := node.accounts;
      frames := frames[|frames| - 1 := Frame(Top().accounts, Top().history, node.stacking, node.poxActions, node.events)];
      return if result.Done? then None else Some(Refused(result));
    }

    /** Runs one node of the tree; lower frames are never touched. */
    method Execute(p: Prog) returns (abort: Option<Abort>)
      requires Valid()
      modifies this
      ensures Valid() && Reached(old(frames), Exec(p, old(Current()))) && abort == Exec(p, old(Current())).abort
      decreases p, 1
    {
      ghost var before, s := frames, Current();
      Begin();
      abort := ExecuteAll(p.body);
      ghost var inner := ExecAll(p.body, Opened(s));
      match p
      case Public(_, ending) =>
        abort := Close(abort, ending, before, s, inner);
      case ReadOnly(_, raises) =>
        abort := Close(abort, if raises then Raises else ReturnsErr, before, s, inner);
      case Pox(call, _, ending) =>
        history := history + [call];
        abort := Close(abort, EndingOf(call, ending), before, s, inner.(history := inner.history + [call]));
        if abort.None? {
          abort := Handle(call);
        }
    }

    method ExecuteAll(body: seq<Prog>) returns (abort: Option<Abort>)
      requires Valid()
      modifies this
      ensures Valid() && Reached(old(frames), ExecAll(body, old(Current()))) && abort == ExecAll(body, old(Current())).abort
      decreases body, 0
    {
      if body == [] {
        return None;
      }
      abort := Execute(body[0]);
      if abort.None? {
        abort := ExecuteAll(body[1..]);
      }
    }
  }
}
