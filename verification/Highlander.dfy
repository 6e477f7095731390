/** The multi-process election of highlander.c.

    Any number of processes race on two named POSIX semaphores.  A name refers to at most one
    semaphore at a time; unlinking removes the name while the semaphore lives on for the processes
    that have it open, so successive semaphores under one name are numbered instances.  A run is a
    sequence of atomic actions, one system call each.
 */
module Highlander {
  import opened Options

  /** Where a process is: the next system call it makes. */
  datatype Pc =
    | Begin            // highlander(): sem_open K with O_CREAT | O_EXCL
    | LordOpenL        // ... succeeded: sem_open L
    | FoeOpenK         // ... failed: sem_open K with O_CREAT
    | FoeOpenL         // sem_open L
    | FoePostK         // sem_post K, which registers the foe
    | Lord             // elected; highlander_wait() samples K
    | LordLoop         // sampled more than 1: sem_wait L, again and again
    | LordUnlinkK      // sampled at most 1: sem_unlink K
    | LordUnlinkL      // sem_unlink L, then highlander_wait() returns
    | Foe              // registered; highlander_wait() does sem_wait K
    | FoePostL         // sem_post L, then highlander_wait() returns
    | CleanK           // highlander_clean(): sem_unlink K
    | CleanL           // sem_unlink L
    | Gone             // has exited or was killed

  /** A process.  `k` and `l` are the semaphore instances it has open; `posted`, `waited` and
      `returned` record what it has done so far; `sample` is the value of K it read. */
  datatype Process = Process(
    pc: Pc, amHighlander: int, k: Option<nat>, l: Option<nat>,
    posted: bool, waited: bool, returned: bool, sample: Option<nat>)

  /** The semaphores.  `kval[i]` is the value of instance `i` of K, `kname` the instance the name of K
      refers to, and `kunlinks` how often that name was taken away. */
  datatype Semaphores = Semaphores(
    kval: seq<nat>, kname: Option<nat>, kunlinks: nat, lval: seq<nat>, lname: Option<nat>)

  datatype State = State(procs: seq<Process>, sems: Semaphores)

  datatype Action =
    | Spawn             // a new process is started
    | Act(p: nat)       // process p makes its next system call
    | CleanOnly(p: nat) // process p was started with -c
    | Kill(p: nat)      // process p dies

  const INIT := State([], Semaphores([], None, 0, [], None))
  const FRESH := Process(Begin, -1, None, None, false, false, false, None)

  // ----- semaphore calls -----------------------------------------------------------------------

  /** sem_open with O_CREAT: the named instance, or a new one with value 0. */
  function OpenedK(m: Semaphores): nat {
    if m.kname.Some? then m.kname.value else |m.kval|
  }

  function OpenK(m: Semaphores): Semaphores {
    if m.kname.Some? then m else m.(kval := m.kval + [0], kname := Some(|m.kval|))
  }

  function OpenedL(m: Semaphores): nat {
    if m.lname.Some? then m.lname.value else |m.lval|
  }

  function OpenL(m: Semaphores): Semaphores {
    if m.lname.Some? then m else m.(lval := m.lval + [0], lname := Some(|m.lval|))
  }

  function UnlinkK(m: Semaphores): Semaphores {
    m.(kname := None, kunlinks := m.kunlinks + if m.kname.Some? then 1 else 0)
  }

  function UnlinkL(m: Semaphores): Semaphores {
    m.(lname := None)
  }

  predicate HasK(m: Semaphores, q: Process) {
    q.k.Some? && q.k.value < |m.kval|
  }

  predicate HasL(m: Semaphores, q: Process) {
    q.l.Some? && q.l.value < |m.lval|
  }

  // ----- actions -------------------------------------------------------------------------------

  /** The system call can be made and returns; the only calls that block are the two sem_waits. */
  predicate CanAct(m: Semaphores, q: Process) {
    match q.pc
    case FoePostK | Lord => HasK(m, q)
    case Foe => HasK(m, q) && m.kval[q.k.value] > 0
    case FoePostL => HasL(m, q)
    case LordLoop => HasL(m, q) && m.lval[q.l.value] > 0
    case Gone => false
    case _ => true
  }

  /** What the call does to the process. */
  function NextProcess(m: Semaphores, q: Process): Process
    requires CanAct(m, q)
  {
    match q.pc
    case Begin =>
      if m.kname.Some? then q.(pc := FoeOpenK)
      else q.(pc := LordOpenL, k := Some(OpenedK(m)), amHighlander := 1)
    case LordOpenL => q.(pc := Lord, l := Some(OpenedL(m)))
    case FoeOpenK => q.(pc := FoeOpenL, k := Some(OpenedK(m)))
    case FoeOpenL => q.(pc := FoePostK, l := Some(OpenedL(m)))
    case FoePostK => q.(pc := Foe, amHighlander := 0, posted := true)
    case Lord =>
      var v := m.kval[q.k.value];
      q.(pc := if v > 1 then LordLoop else LordUnlinkK, sample := Some(v))
    case LordLoop => q
    case LordUnlinkK => q.(pc := LordUnlinkL)
    case LordUnlinkL => q.(pc := CleanK, returned := true)
    case Foe => q.(pc := FoePostL, waited := true)
    case FoePostL => q.(pc := CleanK, returned := true)
    case CleanK => q.(pc := CleanL)
    case CleanL => q.(pc := Gone)
  }

  /** What the call does to the semaphores. */
  function NextSems(m: Semaphores, q: Process): Semaphores
    requires CanAct(m, q)
  {
    match q.pc
    case Begin => OpenK(m)
    case FoeOpenK => OpenK(m)
    case LordOpenL | FoeOpenL => OpenL(m)
    case FoePostK => var i := q.k.value; m.(kval := m.kval[i := m.kval[i] + 1])
    case Foe => var i := q.k.value; m.(kval := m.kval[i := m.kval[i] - 1])
    case FoePostL => var j := q.l.value; m.(lval := m.lval[j := m.lval[j] + 1])
    case LordLoop => var j := q.l.value; m.(lval := m.lval[j := m.lval[j] - 1])
    case LordUnlinkK | CleanK => UnlinkK(m)
    case LordUnlinkL | CleanL => UnlinkL(m)
    case Lord => m
  }

  predicate Enabled(s: State, a: Action) {
    match a
    case Spawn => true
    case Act(p) => p < |s.procs| && CanAct(s.sems, s.procs[p])
    case CleanOnly(p) => p < |s.procs| && s.procs[p].pc == Begin
    case Kill(p) => p < |s.procs|
  }

  function Do(s: State, a: Action): State
    requires Enabled(s, a)
  {
    match a
    case Spawn => s.(procs := s.procs + [FRESH])
    case Act(p) =>
      State(s.procs[p := NextProcess(s.sems, s.procs[p])], NextSems(s.sems, s.procs[p]))
    case CleanOnly(p) => s.(procs := s.procs[p := s.procs[p].(pc := CleanK)])
    case Kill(p) => s.(procs := s.procs[p := s.procs[p].(pc := Gone)])
  }

  /** The state a sequence of actions leads to, if each was enabled when it happened. */
  function Run(acts: seq<Action>): Option<State> {
    if acts == [] then Some(INIT) else
      var before := Run(acts[..|acts| - 1]);
      if before.Some? && Enabled(before.value, acts[|acts| - 1])
      then Some(Do(before.value, acts[|acts| - 1]))
      else None
  }

  // ----- the foes of one instance of K ---------------------------------------------------------

  /** Process `p` has registered with instance `i`. */
  predicate HasPosted(q: Process, i: nat) {
    q.k == Some(i) && q.posted
  }

  predicate HasWaited(q: Process, i: nat) {
    q.k == Some(i) && q.waited
  }

  /** Foes that have posted instance `i`. */
  function Registered(procs: seq<Process>, i: nat): set<nat> {
    set p | 0 <= p < |procs| && HasPosted(procs[p], i)
  }

  /** Foes of instance `i` that have waited on it. */
  function Waited(procs: seq<Process>, i: nat): set<nat> {
    set p | 0 <= p < |procs| && HasWaited(procs[p], i)
  }

  /** Number of tokens process `q` accounts for on instance `i`. */
  function Debt(q: Process, i: nat): nat {
    if HasPosted(q, i) && !q.waited then 1 else 0
  }

  function Debts(procs: seq<Process>, i: nat): nat {
    if procs == [] then 0 else Debts(procs[..|procs| - 1], i) + Debt(procs[|procs| - 1], i)
  }

  // ----- the invariant -------------------------------------------------------------------------

  predicate ProcessOk(m: Semaphores, q: Process) {
    && (q.k.Some? ==> q.k.value < |m.kval|)
    && (q.l.Some? ==> q.l.value < |m.lval|)
    && (q.waited ==> q.posted)
    && (q.posted ==> q.k.Some? && q.amHighlander == 0)
    && (q.sample.Some? ==> q.amHighlander == 1)
    && (q.amHighlander == 1 ==> q.k.Some? && (q.returned ==> q.sample.Some? && q.sample.value <= 1))
    && match q.pc
       case Begin | FoeOpenK => q.k.None? && q.amHighlander == -1 && !q.returned
       case FoeOpenL => q.k.Some? && !q.posted && q.amHighlander == -1 && !q.returned
       case FoePostK => q.k.Some? && q.l.Some? && !q.posted && q.amHighlander == -1 && !q.returned
       case Foe => q.k.Some? && q.l.Some? && q.posted && !q.waited && !q.returned
       case FoePostL => q.l.Some? && q.waited && !q.returned
       case LordOpenL => q.amHighlander == 1 && !q.returned
       case Lord => q.amHighlander == 1 && q.l.Some? && !q.returned
       case LordLoop => q.amHighlander == 1 && q.l.Some? && !q.returned && q.sample.Some? && q.sample.value > 1
       case LordUnlinkK | LordUnlinkL => q.amHighlander == 1 && q.sample.Some? && q.sample.value <= 1 && !q.returned
       case _ => true
  }

  predicate ProcessesOk(s: State) {
    forall p :: 0 <= p < |s.procs| ==> ProcessOk(s.sems, s.procs[p])
  }

  predicate Names(m: Semaphores) {
    && (m.kname.Some? ==> m.kname.value < |m.kval|)
    && (m.lname.Some? ==> m.lname.value < |m.lval|)
    && |m.kval| == m.kunlinks + if m.kname.Some? then 1 else 0
  }

  predicate IsLord(s: State, p: int) {
    0 <= p < |s.procs| && s.procs[p].amHighlander == 1
  }

  /** An instance of K has at most one process that took itself for the highlander. */
  ghost predicate OneLordEach(s: State) {
    forall p, q :: IsLord(s, p) && IsLord(s, q) && s.procs[p].k == s.procs[q].k ==> p == q
  }

  /** The value of every instance of K is the number of tokens its foes account for. */
  predicate Tokens(s: State) {
    forall i :: 0 <= i < |s.sems.kval| ==> s.sems.kval[i] == Debts(s.procs, i)
  }

  ghost predicate Inv(s: State) {
    Names(s.sems) && ProcessesOk(s) && OneLordEach(s) && Tokens(s)
  }

  // ----- every action keeps it -----------------------------------------------------------------

  lemma KeepsNames(m: Semaphores, q: Process)
    requires Names(m) && CanAct(m, q)
    ensures Names(NextSems(m, q))
    ensures |m.kval| <= |NextSems(m, q).kval| && |m.lval| <= |NextSems(m, q).lval|
    ensures m.kunlinks <= NextSems(m, q).kunlinks
  {
  }

  lemma ActorOk(m: Semaphores, q: Process)
    requires Names(m) && ProcessOk(m, q) && CanAct(m, q)
    ensures ProcessOk(NextSems(m, q), NextProcess(m, q))
  {
    KeepsNames(m, q);
    match q.pc
    case Begin | FoeOpenK | FoeOpenL | FoePostK => FoeRegisterOk(m, q);
    case Foe | FoePostL | CleanK | CleanL | Gone => hide Names, OpenK, OpenL;
    case LordOpenL | Lord | LordLoop | LordUnlinkK | LordUnlinkL => hide Names, OpenK;
  }

  lemma FoeRegisterOk(m: Semaphores, q: Process)
    requires Names(m) && ProcessOk(m, q) && CanAct(m, q)
    requires q.pc.Begin? || q.pc.FoeOpenK? || q.pc.FoeOpenL? || q.pc.FoePostK?
    ensures ProcessOk(NextSems(m, q), NextProcess(m, q))
  {
  }

  lemma KeepsProcesses(s: State, a: Action)
    requires Names(s.sems) && ProcessesOk(s) && Enabled(s, a)
    ensures Names(Do(s, a).sems) && ProcessesOk(Do(s, a))
  {
    hide NextProcess, NextSems, CanAct;
    if a.Act? {
      KeepsNames(s.sems, s.procs[a.p]);
      ActorOk(s.sems, s.procs[a.p]);
    }
  }

  /** Only the exclusive sem_open makes a highlander, and it makes its instance as well. */
  lemma NewLord(m: Semaphores, q: Process)
    requires Names(m) && ProcessOk(m, q) && CanAct(m, q) && NextProcess(m, q).amHighlander == 1
    ensures if q.amHighlander == 1 then NextProcess(m, q).k == q.k else NextProcess(m, q).k == Some(|m.kval|)
  {
  }

  lemma KeepsOneLord(s: State, a: Action)
    requires Names(s.sems) && ProcessesOk(s) && OneLordEach(s) && Enabled(s, a)
    ensures OneLordEach(Do(s, a))
  {
    hide NextProcess, NextSems, CanAct;
    var t := Do(s, a);
    if a.Act? && t.procs[a.p].amHighlander == 1 {
      NewLord(s.sems, s.procs[a.p]);
    }
    forall p, q | IsLord(t, p) && IsLord(t, q) && t.procs[p].k == t.procs[q].k
      ensures p == q
    {
      assert p < |s.procs| ==> ProcessOk(s.sems, s.procs[p]);
      assert q < |s.procs| ==> ProcessOk(s.sems, s.procs[q]);
      assert IsLord(s, p) && IsLord(s, q) && s.procs[p].k == s.procs[q].k ==> p == q;
    }
  }

  /** What a call does to the value of instance `i` is what it does to the caller's debt. */
  lemma ActorToken(m: Semaphores, q: Process, i: nat)
    requires Names(m) && ProcessOk(m, q) && CanAct(m, q) && i < |NextSems(m, q).kval|
    ensures var before := if i < |m.kval| then m.kval[i] else 0;
            NextSems(m, q).kval[i] + Debt(q, i) == before + Debt(NextProcess(m, q), i)
  {
  }

  lemma {:induction false} DebtsUpdate(procs: seq<Process>, p: nat, q: Process, i: nat)
    requires p < |procs|
    ensures Debts(procs[p := q], i) + Debt(procs[p], i) == Debts(procs, i) + Debt(q, i)
  {
    var n := |procs| - 1;
    if p < n {
      DebtsUpdate(procs[..n], p, q, i);
      assert procs[p := q][..n] == procs[..n][p := q];
    } else {
      assert procs[p := q][..n] == procs[..n];
    }
  }

  lemma {:induction false} NoDebts(m: Semaphores, procs: seq<Process>, i: nat)
    requires forall p :: 0 <= p < |procs| ==> ProcessOk(m, procs[p])
    requires i >= |m.kval|
    ensures Debts(procs, i) == 0
  {
    if procs != [] {
      assert ProcessOk(m, procs[|procs| - 1]);
      NoDebts(m, procs[..|procs| - 1], i);
    }
  }

  lemma KeepsTokens(s: State, a: Action)
    requires Inv(s) && Enabled(s, a)
    ensures Tokens(Do(s, a))
  {
    hide NextProcess, NextSems, CanAct, ProcessOk;
    var t := Do(s, a);
    forall i | 0 <= i < |t.sems.kval|
      ensures t.sems.kval[i] == Debts(t.procs, i)
    {
      match a
      case Spawn => assert t.procs[..|s.procs|] == s.procs;
      case Act(p) =>
        ActorToken(s.sems, s.procs[p], i);
        DebtsUpdate(s.procs, p, t.procs[p], i);
        if i >= |s.sems.kval| { NoDebts(s.sems, s.procs, i); }
      case CleanOnly(p) => DebtsUpdate(s.procs, p, t.procs[p], i);
      case Kill(p) => DebtsUpdate(s.procs, p, t.procs[p], i);
    }
  }

  /** The invariant holds after every run, whatever the number of processes. */
  lemma {:induction false} Always(acts: seq<Action>)
    requires Run(acts).Some?
    ensures Inv(Run(acts).value)
  {
    if acts != [] {
      var s, a := Run(acts[..|acts| - 1]).value, acts[|acts| - 1];
      Always(acts[..|acts| - 1]);
      KeepsProcesses(s, a);
      KeepsOneLord(s, a);
      KeepsTokens(s, a);
    }
  }

  // ----- what every run guarantees -------------------------------------------------------------

  /** Foes that have posted instance `i` and not waited. */
  function Owing(procs: seq<Process>, i: nat): set<nat> {
    set p | 0 <= p < |procs| && Debt(procs[p], i) == 1
  }

  lemma {:induction false} DebtsCount(procs: seq<Process>, i: nat)
    ensures Debts(procs, i) == |Owing(procs, i)|
  {
    if procs == [] {
      assert Owing(procs, i) == {};
    } else {
      var n := |procs| - 1;
      DebtsCount(procs[..n], i);
      assert Owing(procs, i) == Owing(procs[..n], i) + if Debt(procs[n], i) == 1 then {n} else {};
    }
  }

  lemma OwingIsDifference(procs: seq<Process>, i: nat)
    requires forall p :: 0 <= p < |procs| ==> (procs[p].waited ==> procs[p].posted)
    ensures Waited(procs, i) <= Registered(procs, i)
    ensures Registered(procs, i) - Waited(procs, i) == Owing(procs, i)
    ensures |Owing(procs, i)| == |Registered(procs, i)| - |Waited(procs, i)|
  {
    assert Registered(procs, i) == Owing(procs, i) + Waited(procs, i);
  }

  /** In every run, the value of an instance of K is its registered foes less those that have waited. */
  lemma TokensConserved(acts: seq<Action>, i: nat)
    requires Run(acts).Some? && i < |Run(acts).value.sems.kval|
    ensures var s := Run(acts).value;
            && Waited(s.procs, i) <= Registered(s.procs, i)
            && s.sems.kval[i] == |Registered(s.procs, i)| - |Waited(s.procs, i)|
            && s.sems.kval[i] == |Registered(s.procs, i) - Waited(s.procs, i)|
  {
    Always(acts);
    var s := Run(acts).value;
    forall p | 0 <= p < |s.procs|
      ensures s.procs[p].waited ==> s.procs[p].posted
    {
      assert ProcessOk(s.sems, s.procs[p]);
    }
    DebtsCount(s.procs, i);
    OwingIsDifference(s.procs, i);
  }

  /** Foes with instance `j` of L open whose wait has returned. */
  function FoesDone(procs: seq<Process>, j: nat): set<nat> {
    set p | 0 <= p < |procs| && FoeDone(procs[p], j)
  }

  predicate FoeDone(q: Process, j: nat) {
    q.l == Some(j) && q.amHighlander == 0 && q.returned
  }

  /** The highlander goes once round its loop, on instance `j` of L. */
  predicate LoopWaiting(s: State, a: Action, j: nat) {
    a.Act? && a.p < |s.procs| && s.procs[a.p].pc.LordLoop? && s.procs[a.p].l == Some(j)
  }

  /** How often that has happened in a run. */
  function LoopWaits(acts: seq<Action>, j: nat): nat
    requires Run(acts).Some?
  {
    if acts == [] then 0 else
      var past := acts[..|acts| - 1];
      LoopWaits(past, j) + if LoopWaiting(Run(past).value, acts[|acts| - 1], j) then 1 else 0
  }

  /** In every run, the value of an instance of L is the foes that have returned less the rounds of the
      highlander's loop. */
  lemma {:induction false} LoopTokensConserved(acts: seq<Action>, j: nat)
    requires Run(acts).Some?
    ensures var s := Run(acts).value;
            if j < |s.sems.lval| then s.sems.lval[j] == |FoesDone(s.procs, j)| - LoopWaits(acts, j)
            else FoesDone(s.procs, j) == {} && LoopWaits(acts, j) == 0
  {
    if acts == [] {
      NobodyDone(j);
    } else {
      var past, a := acts[..|acts| - 1], acts[|acts| - 1];
      LoopTokensConserved(past, j);
      Always(past);
      hide Inv, Do, Enabled, FoesDone;
      LoopToken(Run(past).value, a, j);
      DoneStep(Run(past).value, a, j);
    }
  }

  lemma NobodyDone(j: nat)
    ensures FoesDone(INIT.procs, j) == {}
  {
  }

  /** A foe adds to the value when it posts. */
  predicate FoePosting(s: State, a: Action, j: nat) {
    a.Act? && a.p < |s.procs| && s.procs[a.p].pc.FoePostL? && s.procs[a.p].l == Some(j)
  }

  /** What happens to the value of an instance of L, which is 0 when it is created. */
  lemma LoopToken(s: State, a: Action, j: nat)
    requires Inv(s) && Enabled(s, a)
    ensures var m, t := s.sems, Do(s, a).sems;
            && (LoopWaiting(s, a, j) || FoePosting(s, a, j) ==> j < |m.lval|)
            && |m.lval| <= |t.lval|
            && (j < |t.lval| ==>
                  t.lval[j] == (if j < |m.lval| then m.lval[j] else 0)
                               + (if FoePosting(s, a, j) then 1 else 0) - (if LoopWaiting(s, a, j) then 1 else 0))
  {
    if a.Act? { ActorLoopToken(s.sems, s.procs[a.p], j); }
    hide Inv, NextProcess, NextSems, CanAct;
  }

  lemma ActorLoopToken(m: Semaphores, q: Process, j: nat)
    requires CanAct(m, q)
    ensures var posting, looping := q.pc.FoePostL? && q.l == Some(j), q.pc.LordLoop? && q.l == Some(j);
            && (posting || looping ==> j < |m.lval|) && |m.lval| <= |NextSems(m, q).lval|
            && (j < |NextSems(m, q).lval| ==>
                  NextSems(m, q).lval[j]
                  == (if j < |m.lval| then m.lval[j] else 0) + (if posting then 1 else 0) - (if looping then 1 else 0))
  {
  }

  lemma DoneStep(s: State, a: Action, j: nat)
    requires Inv(s) && Enabled(s, a)
    ensures var t := Do(s, a);
            && |FoesDone(t.procs, j)| == |FoesDone(s.procs, j)| + (if FoePosting(s, a, j) then 1 else 0)
            && (FoesDone(s.procs, j) == {} && !FoePosting(s, a, j) ==> FoesDone(t.procs, j) == {})
  {
    hide Inv, NextProcess, NextSems, CanAct, ProcessOk, FoesDone;
    match a
    case Spawn => NobodyAdded(s.procs, j);
    case Act(p) =>
      InvProcess(s, p);
      ActorDone(s.sems, s.procs[p], j);
      DoneUpdate(s.procs, p, NextProcess(s.sems, s.procs[p]), j);
    case CleanOnly(p) => DoneUpdate(s.procs, p, s.procs[p].(pc := CleanK), j);
    case Kill(p) => DoneUpdate(s.procs, p, s.procs[p].(pc := Gone), j);
  }

  lemma NobodyAdded(procs: seq<Process>, j: nat)
    ensures FoesDone(procs + [FRESH], j) == FoesDone(procs, j)
  {
  }

  lemma DoneUpdate(procs: seq<Process>, p: nat, q: Process, j: nat)
    requires p < |procs|
    ensures FoesDone(procs[p := q], j) == if FoeDone(q, j) then FoesDone(procs, j) + {p} else FoesDone(procs, j) - {p}
    ensures p in FoesDone(procs, j) <==> FoeDone(procs[p], j)
  {
    hide FoeDone;
  }

  lemma InvProcess(s: State, p: nat)
    requires Inv(s) && p < |s.procs|
    ensures ProcessOk(s.sems, s.procs[p])
  {
  }

  lemma ActorDone(m: Semaphores, q: Process, j: nat)
    requires ProcessOk(m, q) && CanAct(m, q)
    ensures if q.pc.FoePostL? && q.l == Some(j) then !FoeDone(q, j) && FoeDone(NextProcess(m, q), j)
            else FoeDone(NextProcess(m, q), j) <==> FoeDone(q, j)
  {
  }

  /** A process started to clean up removes both names. */
  lemma CleanRemovesNames(acts: seq<Action>, p: nat) returns (longer: seq<Action>, s: State)
    requires Run(acts).Some? && p < |Run(acts).value.procs| && Run(acts).value.procs[p].pc.Begin?
    ensures longer == acts + [CleanOnly(p), Act(p), Act(p)] && Run(longer) == Some(s)
    ensures s.sems.kname == None && s.sems.lname == None && s.procs[p].pc.Gone?
  {
    hide Run;
    longer, s := Then(acts, CleanOnly(p));
    longer, s := Then(longer, Act(p));
    longer, s := Then(longer, Act(p));
  }

  lemma {:induction false} DebtsCover(procs: seq<Process>, p: nat, i: nat)
    requires p < |procs|
    ensures Debts(procs, i) >= Debt(procs[p], i)
  {
    if p < |procs| - 1 { DebtsCover(procs[..|procs| - 1], p, i); }
  }

  /** A registered foe's sem_wait on K never blocks.  The only call that ever blocks is the highlander's
      sem_wait on L. */
  lemma OnlyTheLoopBlocks(acts: seq<Action>, p: nat)
    requires Run(acts).Some? && p < |Run(acts).value.procs|
    ensures var s := Run(acts).value;
            && (s.procs[p].pc.Foe? ==> Enabled(s, Act(p)))
            && (Enabled(s, Act(p)) <==>
                !s.procs[p].pc.Gone?
                && (s.procs[p].pc.LordLoop? ==> HasL(s.sems, s.procs[p]) && s.sems.lval[s.procs[p].l.value] > 0))
  {
    Always(acts);
    var s := Run(acts).value;
    var q := s.procs[p];
    assert ProcessOk(s.sems, q);
    if q.pc.Foe? {
      DebtsCover(s.procs, p, q.k.value);
    }
  }

  /** At most one process is ever the highlander of an instance of K. */
  lemma OneLord(acts: seq<Action>, p: nat, q: nat)
    requires Run(acts).Some?
    requires IsLord(Run(acts).value, p) && IsLord(Run(acts).value, q)
    requires Run(acts).value.procs[p].k == Run(acts).value.procs[q].k
    ensures p == q
  {
    Always(acts);
  }

  /** Processes that have ever taken themselves for the highlander. */
  function Lords(s: State): set<nat> {
    set p | 0 <= p < |s.procs| && IsLord(s, p)
  }

  lemma {:induction false} DistinctBelow(ids: map<nat, nat>, n: nat)
    requires forall p :: p in ids ==> ids[p] < n
    requires forall p, q :: p in ids && q in ids && ids[p] == ids[q] ==> p == q
    ensures |ids.Keys| <= n
  {
    if n == 0 {
      assert ids.Keys == {};
    } else if p :| p in ids && ids[p] == n - 1 {
      DistinctBelow(ids - {p}, n - 1);
      assert (ids - {p}).Keys == ids.Keys - {p};
    } else {
      DistinctBelow(ids, n - 1);
    }
  }

  /** Over a whole run there are at most as many highlanders as the name of K was removed times, plus
      one.  As long as nobody removes the name there is at most one. */
  lemma LordsBounded(acts: seq<Action>)
    requires Run(acts).Some?
    ensures |Lords(Run(acts).value)| <= Run(acts).value.sems.kunlinks + 1
  {
    Always(acts);
    var s := Run(acts).value;
    forall p | p in Lords(s) ensures s.procs[p].k.Some? && s.procs[p].k.value < |s.sems.kval| {
      assert ProcessOk(s.sems, s.procs[p]);
    }
    var ids := map p | p in Lords(s) :: s.procs[p].k.value;
    DistinctBelow(ids, |s.sems.kval|);
    assert ids.Keys == Lords(s);
  }

  /** Process `p` made its one sample of K as action `n` of the run and read `v`. */
  ghost predicate SampledAt(acts: seq<Action>, n: nat, p: nat, v: nat) {
    && n < |acts| && acts[n] == Act(p)
    && Run(acts[..n]).Some?
    && var s := Run(acts[..n]).value;
       && Enabled(s, Act(p)) && s.procs[p].pc.Lord?
       && s.sems.kval[s.procs[p].k.value] == v
  }

  lemma SampleKept(s: State, a: Action, p: nat)
    requires Enabled(s, a) && p < |Do(s, a).procs| && Do(s, a).procs[p].sample.Some?
    requires !(a == Act(p) && s.procs[p].pc.Lord?)
    ensures p < |s.procs| && s.procs[p].sample == Do(s, a).procs[p].sample
  {
  }

  lemma {:induction false} SampleHappened(acts: seq<Action>, p: nat) returns (n: nat)
    requires Run(acts).Some? && p < |Run(acts).value.procs|
    requires Run(acts).value.procs[p].sample.Some?
    ensures SampledAt(acts, n, p, Run(acts).value.procs[p].sample.value)
  {
    hide NextSems;
    var past, a := acts[..|acts| - 1], acts[|acts| - 1];
    var s := Run(past).value;
    if a == Act(p) && s.procs[p].pc.Lord? {
      n := |acts| - 1;
    } else {
      SampleKept(s, a, p);
      n := SampleHappened(past, p);
      assert acts[..n] == past[..n];
    }
  }

  /** The highlander's wait returns only if its single sample of K was at most 1: at that moment at
      most one registered foe of its instance had not yet waited, and none exactly if it read 0. */
  lemma ReturnsOnSmallSample(acts: seq<Action>, p: nat) returns (n: nat, v: nat)
    requires Run(acts).Some? && IsLord(Run(acts).value, p) && Run(acts).value.procs[p].returned
    ensures SampledAt(acts, n, p, v) && v <= 1
    ensures var s := Run(acts[..n]).value;
            var i := s.procs[p].k.value;
            && |Registered(s.procs, i) - Waited(s.procs, i)| == v
            && (v == 0 <==> Waited(s.procs, i) == Registered(s.procs, i))
  {
    Always(acts);
    var t := Run(acts).value;
    assert ProcessOk(t.sems, t.procs[p]);
    v := t.procs[p].sample.value;
    n := SampleHappened(acts, p);
    TokensConserved(acts[..n], Run(acts[..n]).value.procs[p].k.value);
  }

  /** A highlander that sampled more than 1 never returns, whatever the foes do afterwards: the
      sample is not repeated. */
  lemma {:induction false} LoopsForever(acts: seq<Action>, more: seq<Action>, p: nat)
    requires Run(acts).Some? && Run(acts + more).Some? && p < |Run(acts).value.procs|
    requires Run(acts).value.procs[p].pc.LordLoop?
    ensures p < |Run(acts + more).value.procs|
    ensures var q := Run(acts + more).value.procs[p];
            !q.returned && (q.pc.LordLoop? || q.pc.Gone?)
  {
    if more == [] {
      assert acts + more == acts;
      Always(acts);
      assert ProcessOk(Run(acts).value.sems, Run(acts).value.procs[p]);
    } else {
      var n := |more| - 1;
      assert (acts + more)[..|acts + more| - 1] == acts + more[..n];
      LoopsForever(acts, more[..n], p);
    }
  }

  /** One more action at the end of a run. */
  lemma Then(acts: seq<Action>, a: Action) returns (longer: seq<Action>, s: State)
    requires Run(acts).Some? && Enabled(Run(acts).value, a)
    ensures longer == acts + [a] && Run(longer) == Some(s) && s == Do(Run(acts).value, a)
  {
    longer := acts + [a];
    assert longer[..|longer| - 1] == acts;
    s := Do(Run(acts).value, a);
  }

  // ----- when the highlander returns -----------------------------------------------------------

  /** `more` continues the run and ends with the last call of process `p`'s wait as the highlander. */
  ghost predicate ReturnsAfter(acts: seq<Action>, more: seq<Action>, p: nat) {
    && more != [] && more[|more| - 1] == Act(p)
    && Run(acts + more).Some?
    && Run(acts + more[..|more| - 1]).Some?
    && var s := Run(acts + more[..|more| - 1]).value;
       p < |s.procs| && s.procs[p].pc.LordUnlinkL?
  }

  lemma {:induction false} Returned(acts: seq<Action>, more: seq<Action>, p: nat)
    requires ReturnsAfter(acts, more, p)
    ensures p < |Run(acts + more).value.procs| && Run(acts + more).value.procs[p].returned
  {
    assert (acts + more)[..|acts + more| - 1] == acts + more[..|more| - 1];
  }

  /** From a small sample two calls lead to the return. */
  lemma Unlinks(acts: seq<Action>, p: nat) returns (more: seq<Action>)
    requires Run(acts).Some? && p < |Run(acts).value.procs| && Run(acts).value.procs[p].pc.LordUnlinkK?
    ensures more == [Act(p), Act(p)] && ReturnsAfter(acts, more, p) && Run(acts + more).Some?
    ensures Run(acts + more).value.sems.kname == None && Run(acts + more).value.sems.lname == None
    ensures Run(acts + more).value.sems.kval == Run(acts).value.sems.kval
    ensures Run(acts + more).value.procs == Run(acts).value.procs[p := Run(acts + more).value.procs[p]]
    ensures Run(acts + more).value.procs[p].k == Run(acts).value.procs[p].k
  {
    hide Run;
    var longer, s := Then(acts, Act(p));
    assert s.procs[p].pc.LordUnlinkL?;
    var longest, t := Then(longer, Act(p));
    more := [Act(p), Act(p)];
    assert acts + more == longest && acts + more[..|more| - 1] == longer;
  }

  /** Once it has sampled, the highlander can return if and only if its sample is at most 1. */
  lemma CanReturn(acts: seq<Action>, p: nat)
    requires Run(acts).Some? && p < |Run(acts).value.procs|
    requires var q := Run(acts).value.procs[p]; q.pc.LordLoop? || q.pc.LordUnlinkK?
    ensures Run(acts).value.procs[p].sample.Some?
    ensures Run(acts).value.procs[p].sample.value <= 1 <==> exists more :: ReturnsAfter(acts, more, p)
  {
    Always(acts);
    assert ProcessOk(Run(acts).value.sems, Run(acts).value.procs[p]);
    if Run(acts).value.procs[p].pc.LordUnlinkK? {
      var more := Unlinks(acts, p);
    } else {
      forall more
        ensures !ReturnsAfter(acts, more, p)
      {
        if ReturnsAfter(acts, more, p) {
          Returned(acts, more, p);
          LoopsForever(acts, more, p);
        }
      }
    }
  }

  // ----- the foes outstanding at the return ----------------------------------------------------

  /** The calls of `more`, made from state `s` on, that post instance `i` of K. */
  function Posts(s: State, more: seq<Action>, i: nat): nat
    decreases |more|
  {
    if more == [] || !Enabled(s, more[0]) then 0
    else (if Posting(s, more[0], i) then 1 else 0) + Posts(Do(s, more[0]), more[1..], i)
  }

  predicate Posting(s: State, a: Action, i: nat)
    requires Enabled(s, a)
  {
    a.Act? && s.procs[a.p].pc.FoePostK? && s.procs[a.p].k == Some(i)
  }

  /** Those that wait on it. */
  function Waits(s: State, more: seq<Action>, i: nat): nat
    decreases |more|
  {
    if more == [] || !Enabled(s, more[0]) then 0
    else (if Waiting(s, more[0], i) then 1 else 0) + Waits(Do(s, more[0]), more[1..], i)
  }

  predicate Waiting(s: State, a: Action, i: nat)
    requires Enabled(s, a)
  {
    a.Act? && s.procs[a.p].pc.Foe? && s.procs[a.p].k == Some(i)
  }

  /** Only these calls change the value of an instance. */
  lemma ValueStep(s: State, a: Action, i: nat)
    requires Enabled(s, a) && i < |s.sems.kval|
    ensures i < |Do(s, a).sems.kval|
    ensures Do(s, a).sems.kval[i]
            == s.sems.kval[i] + (if Posting(s, a, i) then 1 else 0) - (if Waiting(s, a, i) then 1 else 0)
  {
  }

  lemma {:induction false} ValueAfter(acts: seq<Action>, more: seq<Action>, i: nat)
    requires Run(acts).Some? && Run(acts + more).Some? && i < |Run(acts).value.sems.kval|
    ensures i < |Run(acts + more).value.sems.kval|
    ensures var s := Run(acts).value;
            Run(acts + more).value.sems.kval[i] == s.sems.kval[i] + Posts(s, more, i) - Waits(s, more, i)
    decreases |more|
  {
    hide NextProcess, NextSems, Posting, Waiting;
    if more == [] {
      assert acts + more == acts;
    } else {
      FirstStep(acts, more);
      assert acts + more == (acts + [more[0]]) + more[1..];
      hide Run, Do, Enabled;
      ValueStep(Run(acts).value, more[0], i);
      ValueAfter(acts + [more[0]], more[1..], i);
    }
  }

  /** The first action of a continuation is enabled where the run stands. */
  lemma {:induction false} FirstStep(acts: seq<Action>, more: seq<Action>)
    requires Run(acts).Some? && Run(acts + more).Some? && more != []
    ensures Enabled(Run(acts).value, more[0])
    ensures Run(acts + [more[0]]) == Some(Do(Run(acts).value, more[0]))
    decreases |more|
  {
    var n := |more| - 1;
    assert (acts + more)[..|acts + more| - 1] == acts + more[..n];
    if n == 0 {
      assert acts + more[..0] == acts && acts + [more[0]] == acts + more;
    } else {
      FirstStep(acts, more[..n]);
    }
  }

  /** The foes of instance `i` that have registered and not waited. */
  function Outstanding(s: State, i: nat): nat {
    |Registered(s.procs, i) - Waited(s.procs, i)|
  }

  /** The foes outstanding when the highlander returns are those it sampled and the posts less the waits
      on its instance since. */
  lemma {:induction false} OutstandingAtReturn(acts: seq<Action>, more: seq<Action>, p: nat)
    requires Run(acts).Some? && p < |Run(acts).value.procs| && Run(acts).value.procs[p].pc.Lord?
    requires more != [] && more[0] == Act(p) && ReturnsAfter(acts, more, p)
    ensures var s, t := Run(acts).value, Run(acts + more).value;
            var i := s.procs[p].k;
            && i.Some? && i.value < |s.sems.kval|
            && t.procs[p].sample == Some(s.sems.kval[i.value])
            && Outstanding(t, i.value)
               == s.sems.kval[i.value] + Posts(s, more, i.value) - Waits(s, more, i.value)
  {
    LordHasInstance(acts, p);
    hide Run, ReturnsAfter, Posts, Waits;
    var i := Run(acts).value.procs[p].k.value;
    ValueAfter(acts, more, i);
    TokensConserved(acts + more, i);
    Returned(acts, more, p);
    SampleIsValue(acts, more, p, i);
  }

  lemma LordHasInstance(acts: seq<Action>, p: nat)
    requires Run(acts).Some? && p < |Run(acts).value.procs| && Run(acts).value.procs[p].pc.Lord?
    ensures var s := Run(acts).value; s.procs[p].k.Some? && s.procs[p].k.value < |s.sems.kval|
  {
    Always(acts);
    assert ProcessOk(Run(acts).value.sems, Run(acts).value.procs[p]);
  }

  lemma SampleIsValue(acts: seq<Action>, more: seq<Action>, p: nat, i: nat)
    requires Run(acts).Some? && p < |Run(acts).value.procs| && Run(acts).value.procs[p].pc.Lord?
    requires Run(acts).value.procs[p].k == Some(i) && i < |Run(acts).value.sems.kval|
    requires Run(acts + more).Some? && more != [] && more[0] == Act(p)
    ensures p < |Run(acts + more).value.procs|
    ensures Run(acts + more).value.procs[p].sample == Some(Run(acts).value.sems.kval[i])
  {
    hide Run;
    FirstStep(acts, more);
    assert acts + more == (acts + [more[0]]) + more[1..];
    SampleStays(acts + [more[0]], more[1..], p);
  }

  /** Past its sample the highlander never comes back to it. */
  predicate Sampled(q: Process) {
    q.pc.LordLoop? || q.pc.LordUnlinkK? || q.pc.LordUnlinkL? || q.pc.CleanK? || q.pc.CleanL? || q.pc.Gone?
  }

  lemma SampledStep(s: State, a: Action, p: nat)
    requires Enabled(s, a) && p < |s.procs| && Sampled(s.procs[p])
    ensures p < |Do(s, a).procs| && Sampled(Do(s, a).procs[p]) && Do(s, a).procs[p].sample == s.procs[p].sample
  {
  }

  lemma {:induction false} SampleStays(acts: seq<Action>, more: seq<Action>, p: nat)
    requires Run(acts).Some? && Run(acts + more).Some? && p < |Run(acts).value.procs|
    requires Sampled(Run(acts).value.procs[p])
    ensures p < |Run(acts + more).value.procs|
    ensures Run(acts + more).value.procs[p].sample == Run(acts).value.procs[p].sample
    decreases |more|
  {
    if more == [] {
      assert acts + more == acts;
    } else {
      FirstStep(acts, more);
      SampledStep(Run(acts).value, more[0], p);
      assert acts + more == (acts + [more[0]]) + more[1..];
      hide Run, Do, Sampled;
      SampleStays(acts + [more[0]], more[1..], p);
    }
  }

  // ----- exactly when the documented aim is met ------------------------------------------------

  /** Nobody can register with instance `i` any more: its name is gone, and no process that has it open is
      still before its post. */
  predicate Closed(s: State, i: nat) {
    && s.sems.kname != Some(i)
    && forall q :: 0 <= q < |s.procs| ==> !OnItsWay(s.procs[q], i)
  }

  predicate OnItsWay(q: Process, i: nat) {
    q.k == Some(i) && (q.pc.FoeOpenL? || q.pc.FoePostK?)
  }

  /** What is decided when the highlander samples: it will be caught, or all foes there can be have
      waited. */
  predicate Settled(s: State, i: nat)
    requires i < |s.sems.kval|
  {
    s.sems.kval[i] >= 2 || (s.sems.kval[i] == 0 && Closed(s, i))
  }

  lemma ClosedStep(s: State, a: Action, i: nat)
    requires Enabled(s, a) && i < |s.sems.kval| && s.sems.kval[i] == 0 && Closed(s, i)
    ensures i < |Do(s, a).sems.kval| && Do(s, a).sems.kval[i] == 0 && Closed(Do(s, a), i)
  {
    forall q | 0 <= q < |Do(s, a).procs|
      ensures !OnItsWay(Do(s, a).procs[q], i)
    {
      assert q < |s.procs| ==> !OnItsWay(s.procs[q], i);
    }
  }

  lemma {:induction false} ClosedStays(acts: seq<Action>, more: seq<Action>, i: nat)
    requires Run(acts).Some? && Run(acts + more).Some?
    requires var s := Run(acts).value; i < |s.sems.kval| && s.sems.kval[i] == 0 && Closed(s, i)
    ensures var t := Run(acts + more).value; i < |t.sems.kval| && t.sems.kval[i] == 0
    decreases |more|
  {
    if more == [] {
      assert acts + more == acts;
    } else {
      FirstStep(acts, more);
      ClosedStep(Run(acts).value, more[0], i);
      assert acts + more == (acts + [more[0]]) + more[1..];
      hide Run, Do, Closed;
      ClosedStays(acts + [more[0]], more[1..], i);
    }
  }

  /** `more` begins with the highlander's sample and ends with its return. */
  ghost predicate SamplesAndReturns(acts: seq<Action>, more: seq<Action>, p: nat) {
    more != [] && more[0] == Act(p) && ReturnsAfter(acts, more, p)
  }

  lemma SettledIsEnough(acts: seq<Action>, more: seq<Action>, p: nat, i: nat)
    requires Run(acts).Some? && p < |Run(acts).value.procs|
    requires Run(acts).value.procs[p].pc.Lord? && Run(acts).value.procs[p].k == Some(i)
    requires i < |Run(acts).value.sems.kval| && Settled(Run(acts).value, i)
    requires SamplesAndReturns(acts, more, p)
    ensures Outstanding(Run(acts + more).value, i) == 0
  {
    hide Closed;
    if Run(acts).value.sems.kval[i] >= 2 {
      CaughtNeverReturns(acts, more, p, i);
    } else {
      ClosedStays(acts, more, i);
      hide Run;
      TokensConserved(acts + more, i);
    }
  }

  lemma CaughtNeverReturns(acts: seq<Action>, more: seq<Action>, p: nat, i: nat)
    requires Run(acts).Some? && p < |Run(acts).value.procs|
    requires Run(acts).value.procs[p].pc.Lord? && Run(acts).value.procs[p].k == Some(i)
    requires i < |Run(acts).value.sems.kval| && Run(acts).value.sems.kval[i] >= 2
    ensures !SamplesAndReturns(acts, more, p)
  {
    if SamplesAndReturns(acts, more, p) {
      FirstStep(acts, more);
      CaughtAtSample(Run(acts).value, p, i);
      hide *;
      NowReturned(acts, more, p);
      assert acts + more == (acts + [more[0]]) + more[1..];
      LoopsForever(acts + [more[0]], more[1..], p);
    }
  }

  lemma CaughtAtSample(s: State, p: nat, i: nat)
    requires p < |s.procs| && s.procs[p].pc.Lord? && s.procs[p].k == Some(i)
    requires i < |s.sems.kval| && s.sems.kval[i] >= 2 && Enabled(s, Act(p))
    ensures p < |Do(s, Act(p)).procs| && Do(s, Act(p)).procs[p].pc.LordLoop?
  {
  }

  lemma NowReturned(acts: seq<Action>, more: seq<Action>, p: nat)
    requires SamplesAndReturns(acts, more, p)
    ensures more != [] && more[0] == Act(p) && Run(acts + more).Some?
    ensures p < |Run(acts + more).value.procs| && Run(acts + more).value.procs[p].returned
  {
    Returned(acts, more, p);
    hide Run;
  }

  /** While an instance is not closed, some process can register with it without disturbing another. */
  lemma SomebodyRegisters(acts: seq<Action>, p: nat, i: nat) returns (more: seq<Action>)
    requires Run(acts).Some? && p < |Run(acts).value.procs| && i < |Run(acts).value.sems.kval|
    requires !Closed(Run(acts).value, i) && !OnItsWay(Run(acts).value.procs[p], i)
    ensures Run(acts + more).Some?
    ensures var t := Run(acts + more).value;
            && i < |t.sems.kval| && t.sems.kval[i] > 0
            && p < |t.procs| && t.procs[p] == Run(acts).value.procs[p]
  {
    hide Run;
    var s := Run(acts).value;
    var longer, t := acts, s;
    var q := |s.procs|;
    if s.sems.kname == Some(i) {
      longer, t := Then(longer, Spawn);
      longer, t := Then(longer, Act(q));
      longer, t := Then(longer, Act(q));
      more := [Spawn, Act(q), Act(q)];
    } else {
      q :| 0 <= q < |s.procs| && OnItsWay(s.procs[q], i);
      more := [];
    }
    assert acts + more == longer;
    assert q != p && t.procs[q].k == Some(i) && t.procs[p] == s.procs[p] && i < |t.sems.kval|;
    assert OnItsWay(t.procs[q], i);
    var rest := PostsAtLast(longer, p, q, i);
    assert acts + (more + rest) == longer + rest;
    more := more + rest;
  }

  lemma PostsAtLast(acts: seq<Action>, p: nat, q: nat, i: nat) returns (more: seq<Action>)
    requires Run(acts).Some? && p < |Run(acts).value.procs| && q < |Run(acts).value.procs| && p != q
    requires OnItsWay(Run(acts).value.procs[q], i) && i < |Run(acts).value.sems.kval|
    ensures Run(acts + more).Some?
    ensures var t := Run(acts + more).value;
            && i < |t.sems.kval| && t.sems.kval[i] > 0
            && p < |t.procs| && t.procs[p] == Run(acts).value.procs[p]
  {
    hide Run;
    var longer, t := acts, Run(acts).value;
    more := [];
    if t.procs[q].pc.FoeOpenL? {
      longer, t := Then(longer, Act(q));
      more := [Act(q)];
    }
    assert acts + more == longer;
    assert t.procs[q].pc.FoePostK?;
    longer, t := Then(longer, Act(q));
    more := more + [Act(q)];
    assert acts + more == longer;
  }

  lemma ReturnsLater(acts: seq<Action>, mid: seq<Action>, end: seq<Action>, p: nat)
    requires ReturnsAfter(acts + mid, end, p)
    ensures ReturnsAfter(acts, mid + end, p) && acts + (mid + end) == (acts + mid) + end
  {
    assert acts + (mid + end) == (acts + mid) + end;
    assert acts + (mid + end)[..|mid + end| - 1] == (acts + mid) + end[..|end| - 1];
    hide Run;
  }

  /** Otherwise the highlander can return while a foe of its instance has not waited. */
  lemma UnsettledCanMiss(acts: seq<Action>, p: nat, i: nat) returns (more: seq<Action>)
    requires Run(acts).Some? && p < |Run(acts).value.procs|
    requires Run(acts).value.procs[p].pc.Lord? && Run(acts).value.procs[p].k == Some(i)
    requires i < |Run(acts).value.sems.kval| && !Settled(Run(acts).value, i)
    ensures SamplesAndReturns(acts, more, p) && Outstanding(Run(acts + more).value, i) > 0
  {
    hide Run, Do, Enabled, Settled, Closed, OnItsWay, ReturnsAfter, Outstanding, Inv;
    var s := Run(acts).value;
    SamplesSmall(s, p, i);
    var sampled, t := Then(acts, Act(p));
    more := [Act(p)];
    if s.sems.kval[i] == 0 {
      StillOpen(s, t, p, i);
      var register := SomebodyRegisters(sampled, p, i);
      assert acts + (more + register) == sampled + register;
      more := more + register;
    }
    var unlink := Unlinks(acts + more, p);
    ReturnsLater(acts, more, unlink, p);
    assert (more + unlink)[0] == Act(p);
    more := more + unlink;
    OutstandingIsValue(acts + more, i);
  }

  lemma OutstandingIsValue(acts: seq<Action>, i: nat)
    requires Run(acts).Some? && i < |Run(acts).value.sems.kval|
    ensures Outstanding(Run(acts).value, i) == Run(acts).value.sems.kval[i]
  {
    hide Run, Registered, Waited;
    TokensConserved(acts, i);
  }

  /** A sample that is not settled lets the highlander go on. */
  lemma SamplesSmall(s: State, p: nat, i: nat)
    requires p < |s.procs| && s.procs[p].pc.Lord? && s.procs[p].k == Some(i)
    requires i < |s.sems.kval| && !Settled(s, i)
    ensures Enabled(s, Act(p)) && s.sems.kval[i] <= 1 && (s.sems.kval[i] == 0 ==> !Closed(s, i))
    ensures var t := Do(s, Act(p)); p < |t.procs| && t.procs[p].pc.LordUnlinkK? && t.sems == s.sems
  {
    hide Closed;
  }

  lemma StillOpen(s: State, t: State, p: nat, i: nat)
    requires Enabled(s, Act(p)) && t == Do(s, Act(p)) && s.procs[p].pc.Lord? && !Closed(s, i)
    ensures !Closed(t, i) && !OnItsWay(t.procs[p], i)
  {
    if s.sems.kname != Some(i) {
      var q :| 0 <= q < |s.procs| && OnItsWay(s.procs[q], i);
      assert OnItsWay(t.procs[q], i);
    }
  }

  /** The documented aim, decided at the sample: every return that follows finds all registered foes
      waited if and only if the highlander read at least 2, and so never returns, or read 0 when
      nobody could register any more. */
  lemma AllWaitedExactly(acts: seq<Action>, p: nat, i: nat)
    requires Run(acts).Some? && p < |Run(acts).value.procs|
    requires Run(acts).value.procs[p].pc.Lord? && Run(acts).value.procs[p].k == Some(i)
    ensures i < |Run(acts).value.sems.kval|
    ensures (forall more :: SamplesAndReturns(acts, more, p) ==> Outstanding(Run(acts + more).value, i) == 0)
            <==> Settled(Run(acts).value, i)
  {
    Always(acts);
    assert ProcessOk(Run(acts).value.sems, Run(acts).value.procs[p]);
    hide Run, Settled, Outstanding, ReturnsAfter;
    if Settled(Run(acts).value, i) {
      forall more | SamplesAndReturns(acts, more, p)
        ensures Outstanding(Run(acts + more).value, i) == 0
      {
        SettledIsEnough(acts, more, p, i);
      }
    } else {
      var more := UnsettledCanMiss(acts, p, i);
    }
  }

  // ----- exactly when there can be another highlander ------------------------------------------

  /** `more` continues the run with another election, and nobody removes K's name meanwhile. */
  ghost predicate AnotherLord(acts: seq<Action>, more: seq<Action>) {
    && Run(acts).Some? && Run(acts + more).Some?
    && Run(acts + more).value.sems.kunlinks == Run(acts).value.sems.kunlinks
    && Lords(Run(acts + more).value) != Lords(Run(acts).value)
  }

  /** While K's name is there and stays there, nobody is elected. */
  lemma NamedStep(s: State, a: Action)
    requires Enabled(s, a) && Inv(s)
    ensures s.sems.kunlinks <= Do(s, a).sems.kunlinks
    ensures s.sems.kname.Some? && Do(s, a).sems.kunlinks == s.sems.kunlinks ==>
              Do(s, a).sems.kname.Some? && Lords(Do(s, a)) == Lords(s)
  {
    if s.sems.kname.Some? && Do(s, a).sems.kunlinks == s.sems.kunlinks {
      forall p: nat
        ensures IsLord(Do(s, a), p) <==> IsLord(s, p)
      {
        if a.Act? && p == a.p { assert ProcessOk(s.sems, s.procs[p]); }
      }
    }
  }

  lemma {:induction false} NamedStays(acts: seq<Action>, more: seq<Action>)
    requires Run(acts).Some? && Run(acts + more).Some?
    ensures var s, t := Run(acts).value, Run(acts + more).value;
            && s.sems.kunlinks <= t.sems.kunlinks
            && (s.sems.kname.Some? && t.sems.kunlinks == s.sems.kunlinks ==> Lords(t) == Lords(s))
    decreases |more|
  {
    if more == [] {
      assert acts + more == acts;
    } else {
      FirstStep(acts, more);
      Always(acts);
      NamedStep(Run(acts).value, more[0]);
      assert acts + more == (acts + [more[0]]) + more[1..];
      hide Run, Do, Lords, Enabled, Inv;
      NamedStays(acts + [more[0]], more[1..]);
    }
  }

  /** Another highlander can be elected, before anyone removes K's name, if and only if the name is not
      there now. */
  lemma AnotherLordExactly(acts: seq<Action>)
    requires Run(acts).Some?
    ensures (exists more :: AnotherLord(acts, more)) <==> Run(acts).value.sems.kname.None?
  {
    hide Run, Lords;
    forall more | AnotherLord(acts, more)
      ensures Run(acts).value.sems.kname.None?
    {
      NamedStays(acts, more);
    }
    if Run(acts).value.sems.kname.None? {
      var more := ElectsAnother(acts);
    }
  }

  /** A process that is started then wins. */
  lemma ElectsAnother(acts: seq<Action>) returns (more: seq<Action>)
    requires Run(acts).Some? && Run(acts).value.sems.kname.None?
    ensures AnotherLord(acts, more)
  {
    hide Run;
    var s := Run(acts).value;
    var p := |s.procs|;
    var longer, t := Then(acts, Spawn);
    longer, t := Then(longer, Act(p));
    more := [Spawn, Act(p)];
    assert acts + more == longer;
    assert IsLord(t, p) && !IsLord(s, p);
    assert p in Lords(t) && p !in Lords(s);
  }

  // ----- runs that miss the documented aim -----------------------------------------------------

  const ELECTED := Process(Lord, 1, Some(0), Some(0), false, false, false, None)
  const REGISTERED := Process(Foe, 0, Some(0), Some(0), true, false, false, None)

  /** A process started in `s` opens both semaphores and registers as the foe of instance 0. */
  lemma Registers(acts: seq<Action>) returns (longer: seq<Action>, s: State)
    requires Run(acts).Some?
    requires var m := Run(acts).value.sems; m.kname == m.lname == Some(0) && |m.kval| == 1
    ensures Run(longer) == Some(s)
    ensures var before := Run(acts).value;
            && s.procs == before.procs + [REGISTERED]
            && s.sems == before.sems.(kval := [before.sems.kval[0] + 1])
  {
    hide Run;
    ghost var before := Run(acts).value;
    var p := |before.procs|;
    longer, s := Then(acts, Spawn);
    longer, s := Then(longer, Act(p));
    longer, s := Then(longer, Act(p));
    longer, s := Then(longer, Act(p));
    assert s.procs[p] == Process(FoePostK, -1, Some(0), Some(0), false, false, false, None);
    longer, s := Then(longer, Act(p));
    assert s.sems.kval == [before.sems.kval[0] + 1];
    assert s.procs == before.procs + [REGISTERED];
  }

  /** Process 0 is elected, process 1 registers as its foe. */
  lemma Registration() returns (acts: seq<Action>, s: State)
    ensures Run(acts) == Some(s)
    ensures s.procs == [ELECTED, REGISTERED] && s.sems == Semaphores([1], Some(0), 0, [0], Some(0))
  {
    acts, s := Then([], Spawn);
    hide Run;
    acts, s := Then(acts, Act(0));
    acts, s := Then(acts, Act(0));
    assert s.procs == [ELECTED];
    assert s.sems.kval == [0] && s.sems.lval == [0];
    acts, s := Registers(acts);
  }

  /** The wait is documented to last until all foes have called wait.  It does not: with one foe
      registered the highlander returns while that foe has not waited. */
  lemma ReturnsBeforeAFoe() returns (acts: seq<Action>, s: State)
    ensures Run(acts) == Some(s)
    ensures |s.procs| == 2 && IsLord(s, 0) && s.procs[0].returned
    ensures s.procs[1].posted && !s.procs[1].waited && s.procs[1].k == s.procs[0].k
  {
    hide Run;
    acts, s := Registration();
    acts, s := Then(acts, Act(0));
    acts, s := Then(acts, Act(0));
    acts, s := Then(acts, Act(0));
  }

  /** Nor does a sample of 0 help while the name is still there: any number of foes can register before
      the highlander has removed it, and none of them need have waited when it returns. */
  lemma ManyOutstanding(m: nat) returns (acts: seq<Action>, s: State)
    ensures Run(acts) == Some(s)
    ensures |s.procs| > 0 && IsLord(s, 0) && s.procs[0].returned && s.procs[0].sample == Some(0)
    ensures Outstanding(s, 0) == m
  {
    hide Run;
    acts, s := SampledNone();
    for n := 0 to m
      invariant Run(acts) == Some(s)
      invariant |s.procs| > 0 && s.procs[0] == UNLINKING && s.sems == Semaphores([n], Some(0), 0, [0], Some(0))
    {
      acts, s := Registers(acts);
    }
    var more := Unlinks(acts, 0);
    SampleStays(acts, more, 0);
    Returned(acts, more, 0);
    acts := acts + more;
    s := Run(acts).value;
    TokensConserved(acts, 0);
    Always(acts);
    SampledIsLord(s, 0);
  }

  lemma SampledIsLord(s: State, p: nat)
    requires Inv(s) && p < |s.procs| && s.procs[p].sample.Some?
    ensures IsLord(s, p)
  {
    assert ProcessOk(s.sems, s.procs[p]);
  }

  const UNLINKING := Process(LordUnlinkK, 1, Some(0), Some(0), false, false, false, Some(0))

  lemma SampledNone() returns (acts: seq<Action>, s: State)
    ensures Run(acts) == Some(s)
    ensures s == State([UNLINKING], Semaphores([0], Some(0), 0, [0], Some(0)))
  {
    acts, s := Then([], Spawn);
    hide Run;
    acts, s := Then(acts, Act(0));
    acts, s := Then(acts, Act(0));
    acts, s := Then(acts, Act(0));
  }

  /** Nor is the highlander unique for all time: a foe that finishes first removes the name, and the
      next process is elected while the first highlander is still waiting to sample. */
  lemma TwoLordsAtOnce() returns (acts: seq<Action>, s: State)
    ensures Run(acts) == Some(s)
    ensures |s.procs| == 3 && s.procs[0].pc.Lord? && s.procs[2].pc.Lord? && s.sems.kunlinks == 1
  {
    hide Run;
    acts, s := Registration();
    acts, s := Then(acts, Act(1));
    acts, s := Then(acts, Act(1));
    acts, s := Then(acts, Act(1));
    assert s.procs[0] == ELECTED && s.sems.kname == None;
    acts, s := Then(acts, Spawn);
    acts, s := Then(acts, Act(2));
    acts, s := Then(acts, Act(2));
  }

  /** With two foes registered the highlander samples 2 and is caught in its loop, also after both
      foes have waited. */
  lemma CaughtThoughAllWaited() returns (acts: seq<Action>, s: State)
    ensures Run(acts) == Some(s)
    ensures |s.procs| == 3 && s.procs[0].pc.LordLoop?
    ensures Registered(s.procs, 0) == Waited(s.procs, 0) == {1, 2}
  {
    hide Run;
    acts, s := Registration();
    acts, s := Registers(acts);
    acts, s := Then(acts, Act(0));
    acts, s := Then(acts, Act(1));
    acts, s := Then(acts, Act(2));
  }
}
