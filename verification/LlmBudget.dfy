/**
 The request-level budget of extra LLM calls: reservations that are later committed or released.

 The lock of the budget is never held across a suspension point, so each operation is one atomic step.
 `Ledger` results hold for any interleaving of any operations, with any tokens; `Client` results add the
 discipline of `budgeted_extra_llm_call`, which ends every granted body by exactly one commit or release.
 */
module LlmBudget {
  import opened Options

  /** The fixed list of features; any other text is recorded as unknown. */
  datatype Feature =
    | LlmQueryRewrite | LlmReranker | MemoryGroundingJudge | ProfileExtraction | KnowledgeExtraction
    | NoteGeneration | ReflectionExtraBatch | TopicStrategyD | UnknownFeature

  datatype Reason = Exhaustion | Committal | Releasing | Reserving | StaleToken

  /** Anything a caller may pass as a token. */
  datatype Token = NotAToken | Reservation(budgetId: string, id: string, feature: Feature)

  datatype Budget = Budget(id: string, maxCalls: nat, used: nat, open: map<string, Feature>)

  predicate Exhausted(b: Budget) {
    b.used + |b.open| >= b.maxCalls
  }

  /** True when the token names an open reservation of this very budget. */
  predicate Takes(b: Budget, t: Token) {
    t.Reservation? && t.budgetId == b.id && t.id in b.open && b.open[t.id] == t.feature
  }

  function AfterReserve(b: Budget, feature: Feature, id: string): Budget {
    if Exhausted(b) then b else b.(open := b.open[id := feature])
  }

  function AfterCommit(b: Budget, t: Token): Budget {
    if Takes(b, t) then b.(open := b.open - {t.id}, used := b.used + 1) else b
  }

  function AfterRelease(b: Budget, t: Token): Budget {
    if Takes(b, t) then b.(open := b.open - {t.id}) else b
  }

  // Any operations, by anyone.

  datatype Op = Reserve(feature: Feature, id: string) | Commit(token: Token) | Release(token: Token)

  predicate Succeeds(b: Budget, op: Op) {
    match op
    case Reserve(_, _) => !Exhausted(b)
    case Commit(t) => Takes(b, t)
    case Release(t) => Takes(b, t)
  }

  function Apply(b: Budget, op: Op): Budget {
    match op
    case Reserve(f, id) => AfterReserve(b, f, id)
    case Commit(t) => AfterCommit(b, t)
    case Release(t) => AfterRelease(b, t)
  }

  function Run(b: Budget, ops: seq<Op>): Budget {
    if ops == [] then b else Apply(Run(b, ops[..|ops| - 1]), ops[|ops| - 1])
  }

  /** Reservation identifiers are never reused. */
  ghost predicate FreshIds(ops: seq<Op>) {
    forall i, j :: 0 <= i < j < |ops| && ops[i].Reserve? && ops[j].Reserve? ==> ops[i].id != ops[j].id
  }

  /** The identifiers handed out by successful reserves. */
  ghost function Reserved(b: Budget, ops: seq<Op>): set<string> {
    if ops == [] then {}
    else
      var init, last := ops[..|ops| - 1], ops[|ops| - 1];
      if last.Reserve? && Succeeds(Run(b, init), last) then Reserved(b, init) + {last.id} else Reserved(b, init)
  }

  /** The identifiers taken by successful commits, or by successful releases. */
  ghost function Settled(b: Budget, ops: seq<Op>, commits: bool): set<string> {
    if ops == [] then {}
    else
      var init, last := ops[..|ops| - 1], ops[|ops| - 1];
      if !last.Reserve? && last.Commit? == commits && Succeeds(Run(b, init), last)
      then Settled(b, init, commits) + {last.token.id} else Settled(b, init, commits)
  }

  /** Every identifier handed out is in exactly one of three places. */
  ghost predicate Partition(all: set<string>, committed: set<string>, released: set<string>, open: set<string>) {
    && all == committed + released + open
    && committed !! released && committed !! open && released !! open
  }

  ghost predicate Accounts(all: set<string>, committed: set<string>, released: set<string>, s: Budget) {
    Partition(all, committed, released, s.open.Keys) && s.used == |committed|
  }

  ghost predicate Balanced(b: Budget, ops: seq<Op>) {
    Accounts(Reserved(b, ops), Settled(b, ops, true), Settled(b, ops, false), Run(b, ops))
  }

  ghost predicate WithinLimit(b: Budget, ops: seq<Op>) {
    var s := Run(b, ops);
    s.id == b.id && s.maxCalls == b.maxCalls && s.used + |s.open| <= s.maxCalls
  }

  lemma {:induction false} ReservedIds(b: Budget, ops: seq<Op>, id: string)
    requires id in Reserved(b, ops)
    ensures exists i :: 0 <= i < |ops| && ops[i].Reserve? && ops[i].id == id
  {
    if id in Reserved(b, ops[..|ops| - 1]) {
      ReservedIds(b, ops[..|ops| - 1], id);
    }
  }

  lemma TakenShrinksOpen(b: Budget, t: Token)
    requires Takes(b, t)
    ensures AfterRelease(b, t).open.Keys == AfterCommit(b, t).open.Keys == b.open.Keys - {t.id}
    ensures |AfterRelease(b, t).open| == |AfterCommit(b, t).open| == |b.open| - 1
  {
    assert |b.open.Keys - {t.id}| == |b.open.Keys| - 1;
  }

  lemma {:induction false} StaysWithinLimit(b: Budget, ops: seq<Op>)
    requires b.used == 0 && b.open == map[]
    ensures WithinLimit(b, ops)
  {
    if ops != [] {
      var s, last := Run(b, ops[..|ops| - 1]), ops[|ops| - 1];
      StaysWithinLimit(b, ops[..|ops| - 1]);
      if last.Reserve? {
        assert s.open[last.id := last.feature].Keys == s.open.Keys + {last.id};
      } else if Succeeds(s, last) {
        TakenShrinksOpen(s, last.token);
      }
    }
  }

  lemma PartitionMoves(all: set<string>, committed: set<string>, released: set<string>, open: set<string>, id: string)
    requires Partition(all, committed, released, open)
    ensures id !in all ==> Partition(all + {id}, committed, released, open + {id})
    ensures id in open ==> Partition(all, committed + {id}, released, open - {id}) && id !in committed
    ensures id in open ==> Partition(all, committed, released + {id}, open - {id})
  {}

  lemma ReserveAccounts(all: set<string>, committed: set<string>, released: set<string>, s: Budget, op: Op)
    requires Accounts(all, committed, released, s) && op.Reserve? && op.id !in all
    ensures Accounts(if Exhausted(s) then all else all + {op.id}, committed, released, Apply(s, op))
  {
    if !Exhausted(s) {
      PartitionMoves(all, committed, released, s.open.Keys, op.id);
      assert Apply(s, op).open.Keys == s.open.Keys + {op.id};
    }
  }

  lemma SettleAccounts(all: set<string>, committed: set<string>, released: set<string>, s: Budget, op: Op)
    requires Accounts(all, committed, released, s) && !op.Reserve? && Takes(s, op.token)
    ensures op.Commit? ==> Accounts(all, committed + {op.token.id}, released, Apply(s, op))
    ensures op.Release? ==> Accounts(all, committed, released + {op.token.id}, Apply(s, op))
  {
    PartitionMoves(all, committed, released, s.open.Keys, op.token.id);
    TakenShrinksOpen(s, op.token);
  }

  lemma OpAccounts(all: set<string>, committed: set<string>, released: set<string>, s: Budget, op: Op)
    requires Accounts(all, committed, released, s)
    requires op.Reserve? ==> op.id !in all
    ensures var took := !op.Reserve? && Takes(s, op.token);
      Accounts(if op.Reserve? && !Exhausted(s) then all + {op.id} else all,
               if took && op.Commit? then committed + {op.token.id} else committed,
               if took && op.Release? then released + {op.token.id} else released,
               Apply(s, op))
  {
    if op.Reserve? {
      ReserveAccounts(all, committed, released, s, op);
    } else if Takes(s, op.token) {
      SettleAccounts(all, committed, released, s, op);
    }
  }

  lemma UnfoldSettled(b: Budget, ops: seq<Op>, commits: bool)
    requires ops != []
    ensures var init, last := ops[..|ops| - 1], ops[|ops| - 1];
      Settled(b, ops, commits) ==
        if !last.Reserve? && last.Commit? == commits && Takes(Run(b, init), last.token)
        then Settled(b, init, commits) + {last.token.id} else Settled(b, init, commits)
  {}

  lemma LastOpAccounts(b: Budget, ops: seq<Op>)
    requires ops != []
    requires Balanced(b, ops[..|ops| - 1])
    requires ops[|ops| - 1].Reserve? ==> ops[|ops| - 1].id !in Reserved(b, ops[..|ops| - 1])
    ensures Balanced(b, ops)
  {
    var init := ops[..|ops| - 1];
    UnfoldSettled(b, ops, true);
    UnfoldSettled(b, ops, false);
    OpAccounts(Reserved(b, init), Settled(b, init, true), Settled(b, init, false), Run(b, init), ops[|ops| - 1]);
  }

  lemma {:induction false} RunBalanced(b: Budget, ops: seq<Op>)
    requires b.used == 0 && b.open == map[] && FreshIds(ops)
    ensures Balanced(b, ops)
  {
    if ops != [] {
      var init, last := ops[..|ops| - 1], ops[|ops| - 1];
      RunBalanced(b, init);
      if last.Reserve? && last.id in Reserved(b, init) {
        ReservedIds(b, init, last.id);
      }
      LastOpAccounts(b, ops);
    }
  }

  /** Successful reserves are exactly the commits, the successful releases and the open reservations. */
  lemma LedgerBalances(b: Budget, ops: seq<Op>)
    requires b.used == 0 && b.open == map[] && FreshIds(ops)
    ensures |Reserved(b, ops)| == Run(b, ops).used + |Run(b, ops).open| + |Settled(b, ops, false)|
    ensures Run(b, ops).used == |Settled(b, ops, true)|
    ensures Run(b, ops).used + |Run(b, ops).open| <= b.maxCalls
  {
    RunBalanced(b, ops);
    StaysWithinLimit(b, ops);
    var committed, released, open := Settled(b, ops, true), Settled(b, ops, false), Run(b, ops).open.Keys;
    assert |committed + released| == |committed| + |released|;
    assert |committed + released + open| == |committed + released| + |open|;
  }

  lemma {:induction false} SettledMember(b: Budget, ops: seq<Op>, i: nat)
    requires i < |ops| && !ops[i].Reserve? && Succeeds(Run(b, ops[..i]), ops[i])
    ensures ops[i].token.id in Settled(b, ops, ops[i].Commit?)
    decreases |ops|
  {
    if i < |ops| - 1 {
      assert ops[..|ops| - 1][..i] == ops[..i];
      SettledMember(b, ops[..|ops| - 1], i);
    }
  }

  /** Committing or releasing a token takes effect at most once over the whole run. */
  lemma TokenTakesEffectOnce(b: Budget, ops: seq<Op>, i: nat, j: nat)
    requires b.used == 0 && b.open == map[] && FreshIds(ops)
    requires i < j < |ops| && !ops[i].Reserve? && !ops[j].Reserve? && ops[i].token == ops[j].token
    requires Succeeds(Run(b, ops[..i]), ops[i])
    ensures !Succeeds(Run(b, ops[..j]), ops[j])
    ensures Apply(Run(b, ops[..j]), ops[j]) == Run(b, ops[..j])
  {
    var before := ops[..j];
    RunBalanced(b, before);
    assert before[..i] == ops[..i];
    SettledMember(b, before, i);
  }

  /** A token of another budget, or no token at all, changes nothing. */
  lemma ForeignTokenIsInert(b: Budget, t: Token)
    requires t.NotAToken? || t.budgetId != b.id
    ensures AfterCommit(b, t) == b && AfterRelease(b, t) == b
  {}

  // Clients of `budgeted_extra_llm_call`.

  datatype Client = Denied | Running(token: Token) | Completed(ok: bool) | Failed(ok: bool)

  datatype State = State(budget: Budget, clients: map<nat, Client>)

  datatype Label =
    | Enter(client: nat, feature: Feature, allowed: bool, id: string)
    | Exit(client: nat, raised: bool)
    | Stray(token: Token, commit: bool)   // someone commits or releases a token no running client holds

  /** Client `c` runs on the open reservation `id`. */
  ghost predicate Holds(s: State, c: nat, id: string) {
    c in s.clients && s.clients[c].Running? && s.clients[c].token.Reservation? && s.clients[c].token.id == id
  }

  ghost predicate Enabled(s: State, l: Label) {
    match l
    case Enter(c, _, _, id) =>
      c !in s.clients && forall d :: d in s.clients ==> !Holds(s, d, id)
    case Exit(c, _) => c in s.clients && s.clients[c].Running?
    case Stray(t, _) => forall d :: d in s.clients ==> s.clients[d] != Running(t)
  }

  function EnterBudget(b: Budget, feature: Feature, allowed: bool, id: string): (r: (Budget, Client)) {
    if !allowed || Exhausted(b) then (b, Denied)
    else (AfterReserve(b, feature, id), Running(Reservation(b.id, id, feature)))
  }

  function ExitBudget(b: Budget, t: Token, raised: bool): (r: (Budget, Client)) {
    if raised then (AfterRelease(b, t), Failed(Takes(b, t))) else (AfterCommit(b, t), Completed(Takes(b, t)))
  }

  function Next(s: State, l: Label): State
    requires l.Exit? ==> l.client in s.clients && s.clients[l.client].Running?
  {
    match l
    case Enter(c, f, allowed, id) =>
      var (b, client) := EnterBudget(s.budget, f, allowed, id);
      State(b, s.clients[c := client])
    case Exit(c, raised) =>
      var (b, client) := ExitBudget(s.budget, s.clients[c].token, raised);
      State(b, s.clients[c := client])
    case Stray(t, commit) =>
      s.(budget := if commit then AfterCommit(s.budget, t) else AfterRelease(s.budget, t))
  }

  ghost function RunningClients(s: State): set<nat> { set c | c in s.clients && s.clients[c].Running? }
  ghost function CompletedClients(s: State): set<nat> { set c | c in s.clients && s.clients[c].Completed? }

  ghost predicate Owned(s: State) {
    forall c :: c in s.clients && s.clients[c].Running? ==> Takes(s.budget, s.clients[c].token)
  }

  ghost predicate NotShared(s: State) {
    forall c, d, id :: Holds(s, c, id) && Holds(s, d, id) ==> c == d
  }

  ghost predicate Held(s: State) {
    forall id :: id in s.budget.open ==> exists c :: Holds(s, c, id)
  }

  ghost predicate AllSettled(s: State) {
    forall c :: c in s.clients ==> s.clients[c] != Completed(false) && s.clients[c] != Failed(false)
  }

  ghost predicate Counted(s: State) {
    && |s.budget.open| == |RunningClients(s)|
    && s.budget.used == |CompletedClients(s)|
    && s.budget.used + |s.budget.open| <= s.budget.maxCalls
  }

  /** Each running client owns one open reservation, and `used` counts the completed ones. */
  ghost predicate Inv(s: State) {
    Owned(s) && NotShared(s) && Held(s) && AllSettled(s) && Counted(s)
  }

  lemma Holder(s: State, id: string) returns (c: nat)
    requires Inv(s) && id in s.budget.open
    ensures c in s.clients && s.clients[c] == Running(Reservation(s.budget.id, id, s.budget.open[id]))
  {
    c :| Holds(s, c, id);
  }

  lemma EnterKeepsHeld(s: State, l: Label)
    requires Inv(s) && Enabled(s, l) && l.Enter?
    ensures Held(Next(s, l)) && NotShared(Next(s, l)) && Owned(Next(s, l))
    ensures Next(s, l).clients[l.client].Running? ==> l.id !in s.budget.open
  {
    var s' := Next(s, l);
    assert l.id !in s.budget.open;
    forall id | id in s'.budget.open ensures exists c :: Holds(s', c, id) {
      if id in s.budget.open {
        var c := Holder(s, id);
        assert Holds(s', c, id);
      } else {
        assert Holds(s', l.client, id);
      }
    }
    forall c, d, id | Holds(s', c, id) && Holds(s', d, id) ensures c == d {
      assert c != l.client ==> Holds(s, c, id);
      assert d != l.client ==> Holds(s, d, id);
    }
  }

  lemma EnterKeepsInv(s: State, l: Label)
    requires Inv(s) && Enabled(s, l) && l.Enter?
    ensures Inv(Next(s, l))
  {
    EnterKeepsHeld(s, l);
    EnterKeepsCounts(s, l);
  }

  lemma EnterKeepsCounts(s: State, l: Label)
    requires Enabled(s, l) && l.Enter? && Counted(s)
    requires Next(s, l).clients[l.client].Running? ==> l.id !in s.budget.open
    ensures Counted(Next(s, l))
  {
    var s' := Next(s, l);
    assert CompletedClients(s') == CompletedClients(s);
    if s'.clients[l.client].Running? {
      assert RunningClients(s') == RunningClients(s) + {l.client};
      assert s'.budget.open.Keys == s.budget.open.Keys + {l.id};
    } else {
      assert RunningClients(s') == RunningClients(s);
    }
  }

  lemma ExitKeepsHeld(s: State, l: Label)
    requires Inv(s) && Enabled(s, l) && l.Exit?
    ensures Held(Next(s, l)) && NotShared(Next(s, l)) && Owned(Next(s, l))
  {
    var s', t := Next(s, l), s.clients[l.client].token;
    assert Holds(s, l.client, t.id);
    forall id | id in s'.budget.open ensures exists c :: Holds(s', c, id) {
      var c := Holder(s, id);
      assert Holds(s', c, id);
    }
    forall c | c in s'.clients && s'.clients[c].Running? ensures Takes(s'.budget, s'.clients[c].token) {
      assert Takes(s.budget, s.clients[c].token);
      assert Holds(s, c, s.clients[c].token.id);
    }
    forall c, d, id | Holds(s', c, id) && Holds(s', d, id) ensures c == d {
      assert Holds(s, c, id) && Holds(s, d, id);
    }
  }

  lemma ExitKeepsInv(s: State, l: Label)
    requires Inv(s) && Enabled(s, l) && l.Exit?
    ensures Inv(Next(s, l))
  {
    ExitKeepsHeld(s, l);
    ExitKeepsCounts(s, l);
  }

  lemma ExitKeepsCounts(s: State, l: Label)
    requires Enabled(s, l) && l.Exit? && Counted(s) && Takes(s.budget, s.clients[l.client].token)
    ensures Counted(Next(s, l))
  {
    var s', t := Next(s, l), s.clients[l.client].token;
    TakenShrinksOpen(s.budget, t);
    assert RunningClients(s') == RunningClients(s) - {l.client};
    assert CompletedClients(s') == CompletedClients(s) + (if l.raised then {} else {l.client});
  }

  /** While the clients keep to the protocol, a stray commit or release finds nothing to take. */
  lemma StrayIsInert(s: State, l: Label)
    requires Inv(s) && Enabled(s, l) && l.Stray?
    ensures Next(s, l) == s
  {
    if Takes(s.budget, l.token) {
      var c := Holder(s, l.token.id);
    }
  }

  lemma StepKeepsInv(s: State, l: Label)
    requires Inv(s) && Enabled(s, l)
    ensures Inv(Next(s, l))
  {
    match l {
      case Enter(_, _, _, _) => EnterKeepsInv(s, l);
      case Exit(_, _) => ExitKeepsInv(s, l);
      case Stray(_, _) => StrayIsInert(s, l);
    }
  }

  ghost predicate IsRun(states: seq<State>, labels: seq<Label>) {
    && |states| == |labels| + 1
    && states[0].clients == map[] && states[0].budget.used == 0 && states[0].budget.open == map[]
    && forall i :: 0 <= i < |labels| ==> Enabled(states[i], labels[i]) && states[i + 1] == Next(states[i], labels[i])
  }

  lemma {:induction false} RunKeepsInv(states: seq<State>, labels: seq<Label>, i: nat)
    requires IsRun(states, labels) && i <= |labels|
    ensures Inv(states[i])
    ensures states[i].budget.maxCalls == states[0].budget.maxCalls && states[i].budget.id == states[0].budget.id
  {
    if i == 0 {
      assert RunningClients(states[0]) == {} && CompletedClients(states[0]) == {};
    } else {
      RunKeepsInv(states, labels, i - 1);
      StepKeepsInv(states[i - 1], labels[i - 1]);
    }
  }

  /** Granted bodies that run or have completed never exceed the limit the budget started with. */
  lemma NeverOversold(states: seq<State>, labels: seq<Label>, i: nat)
    requires IsRun(states, labels) && i <= |labels|
    ensures |RunningClients(states[i])| + |CompletedClients(states[i])| <= states[0].budget.maxCalls
    ensures |states[i].budget.open| == |RunningClients(states[i])|
    ensures states[i].budget.used == |CompletedClients(states[i])|
  {
    RunKeepsInv(states, labels, i);
  }

  /** A client is granted exactly when its feature is allowed and a slot is free. */
  lemma GrantedIffSlotFree(states: seq<State>, labels: seq<Label>, i: nat)
    requires IsRun(states, labels) && i < |labels| && labels[i].Enter?
    ensures states[i + 1].clients[labels[i].client].Running? <==>
      labels[i].allowed
      && |RunningClients(states[i])| + |CompletedClients(states[i])| < states[0].budget.maxCalls
  {
    RunKeepsInv(states, labels, i);
  }

  /** Every granted body is settled once: its commit or release takes effect, whatever else happened. */
  lemma ExitTakesEffect(states: seq<State>, labels: seq<Label>, i: nat)
    requires IsRun(states, labels) && i < |labels| && labels[i].Exit?
    ensures states[i + 1].clients[labels[i].client] == if labels[i].raised then Failed(true) else Completed(true)
    ensures states[i + 1].budget.used == states[i].budget.used + (if labels[i].raised then 0 else 1)
    ensures |states[i + 1].budget.open| == |states[i].budget.open| - 1
  {
    RunKeepsInv(states, labels, i);
    RunKeepsInv(states, labels, i + 1);
    var t := states[i].clients[labels[i].client].token;
    assert states[i + 1].budget.open.Keys == states[i].budget.open.Keys - {t.id};
  }

  /** Once no body runs, no reservation is open and `used` counts the bodies that finished normally. */
  lemma QuiescentBudget(states: seq<State>, labels: seq<Label>, i: nat)
    requires IsRun(states, labels) && i <= |labels|
    requires forall c :: c in states[i].clients ==> !states[i].clients[c].Running?
    ensures states[i].budget.open == map[]
    ensures states[i].budget.used == |CompletedClients(states[i])|
  {
    RunKeepsInv(states, labels, i);
    assert RunningClients(states[i]) == {};
  }

  /** What a reservation, a commit and a release change: a slot opens, becomes used, or is given back. */
  lemma OperationIsExactly(b: Budget, op: Op)
    ensures op.Reserve? ==>
      Apply(b, op) == if b.used + |b.open| < b.maxCalls then Budget(b.id, b.maxCalls, b.used, b.open[op.id := op.feature]) else b
    ensures !op.Reserve? ==>
      var mine := exists id :: id in b.open && op.token == Reservation(b.id, id, b.open[id]);
      Apply(b, op) ==
        if !mine then b
        else Budget(b.id, b.maxCalls, if op.Commit? then b.used + 1 else b.used, b.open - {op.token.id})
  {
    if !op.Reserve? && Takes(b, op.token) {
      assert op.token == Reservation(b.id, op.token.id, b.open[op.token.id]);
    }
  }

  // The object.

  datatype Snapshot = Snapshot(maxCalls: nat, used: nat, reserved: nat, remaining: nat)

  /** The remaining count is exact: it never has to be clamped at zero. */
  lemma RemainingNeverClamped(b: Budget, ops: seq<Op>)
    requires b.used == 0 && b.open == map[]
    ensures SnapshotOf(Run(b, ops)).remaining + Run(b, ops).used + |Run(b, ops).open| == b.maxCalls
  {
    StaysWithinLimit(b, ops);
  }

  function SnapshotOf(b: Budget): Snapshot {
    var remaining := b.maxCalls - b.used - |b.open|;
    Snapshot(b.maxCalls, b.used, |b.open|, if remaining < 0 then 0 else remaining)
  }

  /** What the observer is told; `remaining` and `used` are read after the operation. */
  datatype Observation = Observation(feature: Feature, allowed: bool, used: nat, remaining: nat, reason: Reason)

  function Observe(b: Budget, feature: Feature, allowed: bool, reason: Reason): Observation {
    Observation(feature, allowed, SnapshotOf(b).used, SnapshotOf(b).remaining, reason)
  }

  function TokenFeature(t: Token): Feature {
    if t.Reservation? then t.feature else UnknownFeature
  }

  /** The observer is told what the budget counts after the operation. */
  lemma ObservationAddsUp(b: Budget, feature: Feature, allowed: bool, reason: Reason)
    ensures var o := Observe(b, feature, allowed, reason);
      && o.feature == feature && o.allowed == allowed && o.reason == reason && o.used == b.used
      && (b.used + |b.open| <= b.maxCalls ==> o.remaining + b.used + |b.open| == b.maxCalls)
      && (b.used + |b.open| > b.maxCalls ==> o.remaining == 0)
    ensures SnapshotOf(b).maxCalls == b.maxCalls && SnapshotOf(b).used == b.used && SnapshotOf(b).reserved == |b.open|
    ensures forall id, f :: TokenFeature(Reservation(id, id, f)) == f
    ensures TokenFeature(NotAToken) == UnknownFeature
  {}

  class ExtraLlmBudget {
    const id: string
    const maxCalls: nat
    var used: nat
    var reservations: map<string, Feature>

    ghost function View(): Budget
      reads this
    {
      Budget(id, maxCalls, used, reservations)
    }

    constructor (id: string, maxCalls: int)
      ensures View() == Budget(id, if maxCalls < 0 then 0 else maxCalls, 0, map[])
    {
      this.id := id;
      this.maxCalls := if maxCalls < 0 then 0 else maxCalls;
      used, reservations := 0, map[];
    }

    method TakeSnapshot() returns (s: Snapshot)
      ensures s == SnapshotOf(View())
    {
      var remaining := maxCalls - used - |reservations|;
      s := Snapshot(maxCalls, used, |reservations|, if remaining < 0 then 0 else remaining);
    }

    /** Reserves a slot under the new identifier `freshId`. */
    method Reserve(feature: Feature, freshId: string) returns (t: Option<Token>, o: Observation)
      modifies this
      ensures View() == AfterReserve(old(View()), feature, freshId)
      ensures t == if Exhausted(old(View())) then None
                   else Some(Reservation(id, freshId, feature))
      ensures o == Observe(View(), feature, t.Some?,
                           if t.Some? then Reserving else Exhaustion)
    {
      if used + |reservations| >= maxCalls {
        t := None;
      } else {
        reservations := reservations[freshId := feature];
        t := Some(Reservation(id, freshId, feature));
      }
      var s := TakeSnapshot();
      o := Observation(feature, t.Some?, s.used, s.remaining,
                       if t.Some? then Reserving else Exhaustion);
    }

    method TakeToken(t: Token) returns (feature: Option<Feature>)
      modifies this
      ensures View() == AfterRelease(old(View()), t)
      ensures feature == if Takes(old(View()), t) then Some(t.feature) else None
    {
      feature := None;
      if t.Reservation? && t.budgetId == id && t.id in reservations && reservations[t.id] == t.feature {
        feature := Some(reservations[t.id]);
        reservations := reservations - {t.id};
      }
    }

    method Commit(t: Token) returns (ok: bool, o: Observation)
      modifies this
      ensures View() == AfterCommit(old(View()), t)
      ensures ok <==> Takes(old(View()), t)
      ensures o == if ok then Observe(View(), t.feature, true, Committal)
                   else Observe(View(), TokenFeature(t), false, StaleToken)
    {
      var feature := TakeToken(t);
      ok := feature.Some?;
      if ok {
        used := used + 1;
      }
      var s := TakeSnapshot();
      o := if ok then Observation(feature.value, true, s.used, s.remaining, Committal)
           else Observation(TokenFeature(t), false, s.used, s.remaining, StaleToken);
    }

    method Release(t: Token) returns (ok: bool, o: Observation)
      modifies this
      ensures View() == AfterRelease(old(View()), t)
      ensures ok <==> Takes(old(View()), t)
      ensures o == if ok then Observe(View(), t.feature, false, Releasing)
                   else Observe(View(), TokenFeature(t), false, StaleToken)
    {
      var feature := TakeToken(t);
      ok := feature.Some?;
      var s := TakeSnapshot();
      o := if ok then Observation(feature.value, false, s.used, s.remaining, Releasing)
           else Observation(TokenFeature(t), false, s.used, s.remaining, StaleToken);
    }
  }

  /** Entering `budgeted_extra_llm_call`; the body runs exactly when a running client is returned. */
  method EnterCall(budget: ExtraLlmBudget?, allowed: bool, feature: Feature, freshId: string) returns (c: Client)
    modifies budget
    ensures budget == null ==> c == Denied
    ensures budget != null ==> (budget.View(), c) == EnterBudget(old(budget.View()), feature, allowed, freshId)
  {
    if !allowed || budget == null {
      return Denied;
    }
    var t, _ := budget.Reserve(feature, freshId);
    c := if t.Some? then Running(t.value) else Denied;
  }

  /** Leaving it, after the body returned or raised. */
  method ExitCall(budget: ExtraLlmBudget, c: Client, raised: bool) returns (c': Client)
    requires c.Running?
    modifies budget
    ensures (budget.View(), c') == ExitBudget(old(budget.View()), c.token, raised)
  {
    if raised {
      var ok, _ := budget.Release(c.token);
      c' := Failed(ok);
    } else {
      var ok, _ := budget.Commit(c.token);
      c' := Completed(ok);
    }
  }
}
