/** Any number of clients, one statement at a time, in any interleaving. A writer takes the lock before its first read,
    reads whatever is committed at that moment, then sends its statements over the committed tables; a reader reads one
    snapshot. Any client may fail before any statement. */
module Concurrency {
  import opened Wrappers
  import opened Fingerprint
  import opened Domain
  import opened Tables
  import opened Policy
  import opened Invariant
  import opened Plans
  import opened Recall
  import opened Runs

  datatype Decision = Undecided | Decided(reply: Reply, todo: seq<Statement>)

  datatype Client =
    | Ready(op: Op)
    | Active(op: Op, views: seq<Tables>, sent: seq<Statement>, decision: Decision)
    | Answered(op: Op, reply: Reply)
    | Faulted
    | Idle
    | Reading(began: nat, snapshot: Option<Tables>, seen: seq<Tables>)
    | Finished(began: nat, ended: nat, seen: seq<Tables>)

  /** An operation that ended with an answer, in the order in which answers were given. */
  datatype Entry = Entry(op: Op, reply: Reply)

  datatype System = System(committed: Tables, lock: Option<nat>, clients: map<nat, Client>, log: seq<Entry>)

  datatype Move =
    | Begin(client: nat)
    | Look(client: nat)
    | Decide(client: nat, reply: Reply, todo: seq<Statement>)
    | Write(client: nat)
    | Commit(client: nat)
    | Refuse(client: nat)
    | Fault(client: nat)
    | Watch(client: nat)
    | Read(client: nat)
    | Leave(client: nat)

  /** What a writer sees: the tables committed now, under its own statements. */
  function Overlay(s: System, sent: seq<Statement>): Executed {
    ExecAll(sent, s.committed)
  }

  /** A writer decides by the policy when all its reads agree on one state, and in any way at all when they do not. */
  ghost predicate Decides(op: Op, views: seq<Tables>, reply: Reply, todo: seq<Statement>)
    requires OpOk(op)
  {
    views != [] &&
    ((forall i :: 0 <= i < |views| ==> views[i] == views[0]) ==>
       reply == Step(views[0], op).reply && IsPlan(views[0], op, todo))
  }

  ghost predicate Enabled(s: System, m: Move) {
    m.client in s.clients &&
    var c := s.clients[m.client];
    match m
    case Begin(_) => c.Ready? && s.lock.None?
    case Look(_) => c.Active? && c.decision.Undecided?
    case Decide(_, reply, todo) => c.Active? && c.decision.Undecided? && OpOk(c.op)
      && Decides(c.op, c.views, reply, todo)
    case Write(_) => c.Active? && c.decision.Decided? && c.decision.todo != [] && Overlay(s, c.sent).Done?
    case Commit(_) =>
      c.Active? && c.decision.Decided? && c.decision.todo == [] && !c.decision.reply.Failed? && Overlay(s, c.sent).Done?
    case Refuse(_) => c.Active? && c.decision.Decided? && c.decision.reply.Failed?
    case Fault(_) => c.Ready? || c.Active? || c.Idle? || c.Reading?
    case Watch(_) => c.Idle?
    case Read(_) => c.Reading?
    case Leave(_) => c.Reading?
  }

  function Unlocked(s: System, client: nat): Option<nat> {
    if s.lock == Some(client) then None else s.lock
  }

  ghost function Do(s: System, m: Move): System
    requires Enabled(s, m)
  {
    var p := m.client;
    var c := s.clients[p];
    match m
    case Begin(_) => s.(lock := Some(p), clients := s.clients[p := Client.Active(c.op, [], [], Undecided)])
    case Look(_) =>
      // Before deciding nothing has been sent, so the view is what is committed.
      s.(clients := s.clients[p := c.(views := c.views + [s.committed])])
    case Decide(_, reply, todo) => s.(clients := s.clients[p := c.(decision := Decided(reply, todo))])
    case Write(_) =>
      if Exec(c.decision.todo[0], Overlay(s, c.sent).state).Done?
      then s.(clients := s.clients[p := c.(sent := c.sent + [c.decision.todo[0]],
                                           decision := Decided(c.decision.reply, c.decision.todo[1..]))])
      else s.(lock := Unlocked(s, p), clients := s.clients[p := Faulted])
    case Commit(_) =>
      s.(committed := Overlay(s, c.sent).state, lock := Unlocked(s, p), log := s.log + [Entry(c.op, c.decision.reply)],
         clients := s.clients[p := Answered(c.op, c.decision.reply)])
    case Refuse(_) =>
      s.(lock := Unlocked(s, p), log := s.log + [Entry(c.op, c.decision.reply)],
         clients := s.clients[p := Answered(c.op, c.decision.reply)])
    case Fault(_) => s.(lock := Unlocked(s, p), clients := s.clients[p := Faulted])
    case Watch(_) => s.(clients := s.clients[p := Reading(|s.log|, None, [])])
    case Read(_) =>
      var view := if c.snapshot.Some? then c.snapshot.value else s.committed;
      s.(clients := s.clients[p := c.(snapshot := Some(view), seen := c.seen + [view])])
    case Leave(_) => s.(clients := s.clients[p := Finished(c.began, |s.log|, c.seen)])
  }

  /** The moves are all possible, one after the other. */
  ghost predicate Possible(s: System, moves: seq<Move>)
    decreases |moves|, 0
  {
    moves == [] || (Possible(s, moves[..|moves| - 1]) && Enabled(After(s, moves[..|moves| - 1]), moves[|moves| - 1]))
  }

  ghost function After(s: System, moves: seq<Move>): System
    requires Possible(s, moves)
    decreases |moves|, 1
  {
    if moves == [] then s else Do(After(s, moves[..|moves| - 1]), moves[|moves| - 1])
  }

  ghost predicate Initial(s: System) {
    && s.lock.None? && s.log == []
    && (forall p :: p in s.clients ==> s.clients[p].Idle? || (s.clients[p].Ready? && OpOk(s.clients[p].op)))
  }

  // ----- the serial run the log describes

  ghost predicate LogOk(log: seq<Entry>) {
    forall i :: 0 <= i < |log| ==> OpOk(log[i].op)
  }

  function Ops(log: seq<Entry>): (r: seq<Op>)
    ensures |r| == |log| && forall i :: 0 <= i < |r| ==> r[i] == log[i].op
  {
    seq(|log|, i requires 0 <= i < |log| => log[i].op)
  }

  /** The tables after the first `n` answers. */
  ghost function StateAt(t: Tables, log: seq<Entry>, n: nat): Tables
    requires LogOk(log) && n <= |log|
  {
    Run(t, Ops(log[..n]))
  }

  /** Every answer is the one the operation gives when the answered operations run one at a time. */
  ghost predicate Serial(t: Tables, log: seq<Entry>)
    requires LogOk(log)
  {
    forall i :: 0 <= i < |log| ==> log[i].reply == Step(StateAt(t, log, i), log[i].op).reply
  }

  ghost predicate SeesOneState(t: Tables, log: seq<Entry>, began: nat, ended: nat, seen: seq<Tables>)
    requires LogOk(log) && ended <= |log|
  {
    exists n: nat :: began <= n <= ended && forall i :: 0 <= i < |seen| ==> seen[i] == StateAt(t, log, n)
  }

  ghost predicate WriterOk(committed: Tables, c: Client)
    requires c.Active?
  {
    && OpOk(c.op)
    && (forall i :: 0 <= i < |c.views| ==> c.views[i] == committed)
    && (c.decision.Undecided? ==> c.sent == [])
    && (c.decision.Decided? ==>
          c.decision.reply == Step(committed, c.op).reply && IsPlan(committed, c.op, c.sent + c.decision.todo))
  }

  ghost predicate ClientOk(t: Tables, s: System, p: nat)
    requires p in s.clients && LogOk(s.log)
  {
    var c := s.clients[p];
    match c
    case Ready(op) => OpOk(op)
    case Active(_, _, _, _) => s.lock == Some(p) && WriterOk(s.committed, c)
    case Reading(began, snapshot, seen) =>
      && began <= |s.log|
      && (snapshot.None? ==> seen == [])
      && (snapshot.Some? ==>
            && (forall i :: 0 <= i < |seen| ==> seen[i] == snapshot.value)
            && SeesOneState(t, s.log, began, |s.log|, [snapshot.value]))
    case Finished(began, ended, seen) => began <= ended <= |s.log| && SeesOneState(t, s.log, began, ended, seen)
    case _ => true
  }

  ghost predicate Linear(t: Tables, s: System) {
    && LogOk(s.log) && Serial(t, s.log) && s.committed == StateAt(t, s.log, |s.log|)
    && (s.lock.Some? ==> s.lock.value in s.clients && s.clients[s.lock.value].Active?)
    && (forall p :: p in s.clients ==> ClientOk(t, s, p))
  }

  // ----- every move keeps it

  lemma Prefix(t: Tables, log: seq<Entry>, e: Entry, n: nat)
    requires LogOk(log) && OpOk(e.op) && n <= |log|
    ensures LogOk(log + [e]) && StateAt(t, log + [e], n) == StateAt(t, log, n)
  {
    hide Run;
    assert (log + [e])[..n] == log[..n];
  }

  lemma NextState(t: Tables, log: seq<Entry>, e: Entry)
    requires LogOk(log) && OpOk(e.op)
    ensures LogOk(log + [e])
    ensures StateAt(t, log + [e], |log| + 1) == Step(StateAt(t, log, |log|), e.op).state
  {
    hide Step;
    var ops := Ops((log + [e])[..|log| + 1]);
    assert (log + [e])[..|log| + 1] == log + [e] && log[..|log|] == log;
    assert ops[..|ops| - 1] == Ops(log);
  }

  lemma SerialGrows(t: Tables, log: seq<Entry>, e: Entry)
    requires LogOk(log) && Serial(t, log) && OpOk(e.op) && e.reply == Step(StateAt(t, log, |log|), e.op).reply
    ensures LogOk(log + [e]) && Serial(t, log + [e])
  {
    hide Step, StateAt;
    forall i | 0 <= i < |log + [e]|
      ensures (log + [e])[i].reply == Step(StateAt(t, log + [e], i), (log + [e])[i].op).reply
    {
      Prefix(t, log, e, i);
    }
  }

  lemma SightingKept(t: Tables, log: seq<Entry>, e: Entry, began: nat, ended: nat, seen: seq<Tables>)
    requires LogOk(log) && OpOk(e.op) && ended <= |log| && SeesOneState(t, log, began, ended, seen)
    ensures LogOk(log + [e]) && SeesOneState(t, log + [e], began, ended, seen)
    ensures SeesOneState(t, log + [e], began, ended + 1, seen)
  {
    hide StateAt;
    var n: nat :| began <= n <= ended && forall i :: 0 <= i < |seen| ==> seen[i] == StateAt(t, log, n);
    Prefix(t, log, e, n);
  }

  /** A client other than the lock holder does not notice an answer. */
  lemma OthersKept(t: Tables, s: System, u: System, p: nat, e: Entry)
    requires Linear(t, s) && p in s.clients && p in u.clients && u.clients[p] == s.clients[p] && !s.clients[p].Active?
    requires OpOk(e.op) && u.log == s.log + [e]
    ensures LogOk(u.log) && ClientOk(t, u, p)
  {
    hide StateAt, SeesOneState, Serial, WriterOk;
    assert ClientOk(t, s, p);
    match s.clients[p]
    case Reading(began, snapshot, seen) =>
      if snapshot.Some? {
        SightingKept(t, s.log, e, began, |s.log|, [snapshot.value]);
      }
    case Finished(began, ended, seen) => SightingKept(t, s.log, e, began, ended, seen);
    case _ =>
  }

  lemma AnswerKeepsLinear(t: Tables, s: System, u: System, p: nat, e: Entry)
    requires Linear(t, s) && p in s.clients && s.clients[p].Active? && s.lock == Some(p)
    requires OpOk(e.op) && e.op == s.clients[p].op && e.reply == Step(s.committed, e.op).reply
    requires u == s.(committed := Step(s.committed, e.op).state, lock := None, log := s.log + [e],
                     clients := s.clients[p := Answered(e.op, e.reply)])
    ensures Linear(t, u)
  {
    hide StateAt, SeesOneState, Serial, WriterOk, Step;
    SerialGrows(t, s.log, e);
    NextState(t, s.log, e);
    forall q | q in u.clients
      ensures ClientOk(t, u, q)
    {
      if q != p {
        assert ClientOk(t, s, q);
        OthersKept(t, s, u, q, e);
      }
    }
  }

  /** The lock holder's statements so far are accepted, and so is the next. */
  lemma NextAccepted(s: System, c: Client)
    requires c.Active? && WriterOk(s.committed, c) && c.decision.Decided?
    ensures Overlay(s, c.sent).Done?
    ensures c.decision.todo == [] ==> Overlay(s, c.sent).state == Step(s.committed, c.op).state
    ensures c.decision.todo != [] ==> Exec(c.decision.todo[0], Overlay(s, c.sent).state).Done?
  {
    hide Step, IsPlan, Exec, ExecAll;
    var plan := c.sent + c.decision.todo;
    PlanExecutes(s.committed, c.op, plan);
    PrefixExecutes(plan, |c.sent|, s.committed);
    assert plan[..|c.sent|] == c.sent;
    if c.decision.todo != [] {
      PrefixExecutes(plan, |c.sent| + 1, s.committed);
      assert plan[..|c.sent| + 1] == c.sent + [c.decision.todo[0]];
      ExecSnoc(c.sent, c.decision.todo[0], s.committed);
    } else {
      assert plan == c.sent;
    }
  }

  /** A move that answers nothing and changes one client only. */
  lemma OneClient(t: Tables, s: System, u: System, p: nat)
    requires Linear(t, s) && p in s.clients && p in u.clients
    requires u == s.(lock := u.lock, clients := s.clients[p := u.clients[p]])
    requires u.lock == s.lock || (u.lock.None? && s.lock == Some(p)) || (s.lock.None? && u.lock == Some(p))
    requires u.lock == Some(p) <==> u.clients[p].Active?
    requires ClientOk(t, u, p)
    ensures Linear(t, u)
  {
    hide StateAt, SeesOneState, Serial, WriterOk;
    forall q | q in u.clients
      ensures ClientOk(t, u, q)
    {
      if q != p {
        assert ClientOk(t, s, q);
        OtherClient(t, s, u, p, q);
      }
    }
  }

  lemma OtherClient(t: Tables, s: System, u: System, p: nat, q: nat)
    requires q in s.clients && q in u.clients && u.clients[q] == s.clients[q] && p != q
    requires u.committed == s.committed && u.log == s.log && LogOk(s.log) && ClientOk(t, s, q)
    requires u.lock == s.lock || (u.lock.None? && s.lock == Some(p)) || (s.lock.None? && u.lock == Some(p))
    ensures ClientOk(t, u, q)
  {
    hide StateAt, SeesOneState, WriterOk;
  }

  lemma ReadKeepsLinear(t: Tables, s: System, m: Move)
    requires Linear(t, s) && Enabled(s, m) && m.Read?
    ensures Linear(t, Do(s, m))
  {
    hide StateAt, Serial, Step;
    var c := s.clients[m.client];
    assert ClientOk(t, s, m.client);
    assert [s.committed][0] == StateAt(t, s.log, |s.log|);
    OneClient(t, s, Do(s, m), m.client);
  }

  lemma LeaveKeepsLinear(t: Tables, s: System, m: Move)
    requires Linear(t, s) && Enabled(s, m) && m.Leave?
    ensures Linear(t, Do(s, m))
  {
    hide StateAt, Serial, Step;
    var c := s.clients[m.client];
    assert ClientOk(t, s, m.client);
    if c.snapshot.Some? {
      var one := [c.snapshot.value];
      var n: nat :| c.began <= n <= |s.log| && forall i :: 0 <= i < |one| ==> one[i] == StateAt(t, s.log, n);
      assert one[0] == c.snapshot.value;
      assert forall i :: 0 <= i < |c.seen| ==> c.seen[i] == StateAt(t, s.log, n);
    } else {
      assert c.seen == [];
      ghost var now := StateAt(t, s.log, |s.log|);
    }
    OneClient(t, s, Do(s, m), m.client);
  }

  lemma DecideKeepsLinear(t: Tables, s: System, m: Move)
    requires Linear(t, s) && Enabled(s, m) && m.Decide?
    ensures Linear(t, Do(s, m))
  {
    hide StateAt, Serial, Step, IsPlan;
    var c := s.clients[m.client];
    assert ClientOk(t, s, m.client);
    assert c.sent + m.todo == m.todo;
    OneClient(t, s, Do(s, m), m.client);
  }

  lemma WriteKeepsLinear(t: Tables, s: System, m: Move)
    requires Linear(t, s) && Enabled(s, m) && m.Write?
    ensures Linear(t, Do(s, m))
  {
    hide StateAt, Serial, Step, IsPlan, Exec, ExecAll;
    var c := s.clients[m.client];
    assert ClientOk(t, s, m.client);
    NextAccepted(s, c);
    assert (c.sent + [c.decision.todo[0]]) + c.decision.todo[1..] == c.sent + c.decision.todo;
    OneClient(t, s, Do(s, m), m.client);
  }

  lemma MoveKeepsLinear(t: Tables, s: System, m: Move)
    requires Linear(t, s) && Enabled(s, m)
    ensures Linear(t, Do(s, m))
  {
    hide StateAt, Serial, Step, IsPlan, Exec, ExecAll, SeesOneState;
    var p := m.client;
    var c := s.clients[p];
    assert ClientOk(t, s, p);
    match m
    case Begin(_) => OneClient(t, s, Do(s, m), p);
    case Look(_) => OneClient(t, s, Do(s, m), p);
    case Decide(_, _, _) => DecideKeepsLinear(t, s, m);
    case Write(_) => WriteKeepsLinear(t, s, m);
    case Commit(_) =>
      NextAccepted(s, c);
      AnswerKeepsLinear(t, s, Do(s, m), p, Entry(c.op, c.decision.reply));
    case Refuse(_) =>
      RefusedKeepsState(s.committed, c.op);
      AnswerKeepsLinear(t, s, Do(s, m), p, Entry(c.op, c.decision.reply));
    case Fault(_) => OneClient(t, s, Do(s, m), p);
    case Watch(_) => OneClient(t, s, Do(s, m), p);
    case Read(_) => ReadKeepsLinear(t, s, m);
    case Leave(_) => LeaveKeepsLinear(t, s, m);
  }

  /** Every interleaving, with failures anywhere, amounts to running the answered operations one at a time: the
      committed tables and every answer are those of that run, and whatever a reader saw is one state of it, between
      the moments the reader began and ended. */
  lemma {:induction false} EveryInterleavingIsSerial(s: System, moves: seq<Move>)
    requires Initial(s) && Possible(s, moves)
    ensures Linear(s.committed, After(s, moves))
  {
    hide Linear, Enabled, Do;
    if moves == [] {
      InitiallyLinear(s);
    } else {
      EveryInterleavingIsSerial(s, moves[..|moves| - 1]);
      MoveKeepsLinear(s.committed, After(s, moves[..|moves| - 1]), moves[|moves| - 1]);
    }
  }

  lemma InitiallyLinear(s: System)
    requires Initial(s)
    ensures Linear(s.committed, s)
  {
    assert Ops(s.log[..|s.log|]) == [];
  }

  /** In no interleaving is a statement turned away by a key, a foreign key or a check. */
  lemma NoStatementIsRejected(s: System, moves: seq<Move>, p: nat)
    requires Initial(s) && Possible(s, moves)
    ensures var u := After(s, moves);
            p in u.clients && u.clients[p].Active? && u.clients[p].decision.Decided?
              && u.clients[p].decision.todo != [] ==>
              Enabled(u, Write(p)) && Do(u, Write(p)).clients[p].Active?
  {
    hide Possible, After, Step, IsPlan, Exec, ExecAll, StateAt, Serial;
    EveryInterleavingIsSerial(s, moves);
    var u := After(s, moves);
    if p in u.clients && u.clients[p].Active? && u.clients[p].decision.Decided? {
      assert ClientOk(s.committed, u, p);
      NextAccepted(u, u.clients[p]);
    }
  }

  // ----- progress

  /** Moves of one client, none of them a failure. */
  ghost predicate Own(p: nat, moves: seq<Move>) {
    forall i :: 0 <= i < |moves| ==> moves[i].client == p && !moves[i].Fault?
  }

  /** In `u`, the writer `p` of `s` has been answered what its operation does to the tables committed in `s`, these have
      changed accordingly, the lock is free, and nothing else has changed. */
  ghost predicate Served(s: System, u: System, p: nat)
    requires p in s.clients && (s.clients[p].Active? || s.clients[p].Ready?) && OpOk(s.clients[p].op)
  {
    var op := s.clients[p].op;
    var outcome := Step(s.committed, op);
    u == System(outcome.state, None, s.clients[p := Answered(op, outcome.reply)], s.log + [Entry(op, outcome.reply)])
  }

  lemma OneMove(s: System, m: Move)
    requires Enabled(s, m)
    ensures Possible(s, [m]) && After(s, [m]) == Do(s, m)
  {
    hide Enabled, Do;
    assert [m][..0] == [];
  }

  lemma {:induction false} MovesConcat(s: System, a: seq<Move>, b: seq<Move>)
    requires Possible(s, a) && Possible(After(s, a), b)
    ensures Possible(s, a + b) && After(s, a + b) == After(After(s, a), b)
  {
    hide Enabled, Do;
    if b == [] {
      assert a + b == a;
    } else {
      MovesConcat(s, a, b[..|b| - 1]);
      assert (a + b)[..|a + b| - 1] == a + b[..|b| - 1];
    }
  }

  lemma MoveFirst(s: System, m: Move, rest: seq<Move>)
    requires Enabled(s, m) && Possible(Do(s, m), rest)
    ensures Possible(s, [m] + rest) && After(s, [m] + rest) == After(Do(s, m), rest)
  {
    hide Enabled, Do, Possible, After;
    OneMove(s, m);
    MovesConcat(s, [m], rest);
  }

  /** A writer that has decided sends what is left and commits, or gives its refusal. */
  lemma {:induction false} DecidedIsServed(t: Tables, s: System, p: nat) returns (moves: seq<Move>)
    requires Linear(t, s) && p in s.clients && s.clients[p].Active? && s.clients[p].decision.Decided?
    ensures Own(p, moves) && Possible(s, moves) && OpOk(s.clients[p].op) && Served(s, After(s, moves), p)
    decreases |s.clients[p].decision.todo|
  {
    hide StateAt, Serial, Step, IsPlan, Exec, ExecAll, SeesOneState, Possible, After, Linear, ClientOk;
    var c := s.clients[p];
    HolderOk(t, s, p);
    NextAccepted(s, c);
    if c.decision.reply.Failed? {
      RefusedKeepsState(s.committed, c.op);
      moves := [Refuse(p)];
      OneMove(s, Refuse(p));
    } else if c.decision.todo == [] {
      moves := [Commit(p)];
      OneMove(s, Commit(p));
    } else {
      var u := Do(s, Write(p));
      MoveKeepsLinear(t, s, Write(p));
      var rest := DecidedIsServed(t, u, p);
      moves := [Write(p)] + rest;
      MoveFirst(s, Write(p), rest);
      assert u.clients[p := After(u, rest).clients[p]] == s.clients[p := After(u, rest).clients[p]];
    }
  }

  lemma HolderIsServed(t: Tables, s: System, p: nat) returns (moves: seq<Move>)
    requires Linear(t, s) && p in s.clients && s.clients[p].Active?
    ensures Own(p, moves) && Possible(s, moves) && OpOk(s.clients[p].op) && Served(s, After(s, moves), p)
  {
    hide StateAt, Serial, Step, IsPlan, Exec, ExecAll, SeesOneState, Possible, After, Linear;
    assert OpOk(s.clients[p].op) by { HolderOk(t, s, p); }
    if s.clients[p].decision.Decided? {
      moves := DecidedIsServed(t, s, p);
    } else {
      var u := Do(s, Look(p));
      MoveKeepsLinear(t, s, Look(p));
      HolderOk(t, u, p);
      var todo := PlanExists(s.committed, s.clients[p].op);
      var m := Decide(p, Step(s.committed, s.clients[p].op).reply, todo);
      MoveKeepsLinear(t, u, m);
      var rest := DecidedIsServed(t, Do(u, m), p);
      MoveFirst(u, m, rest);
      MoveFirst(s, Look(p), [m] + rest);
      moves := [Look(p)] + ([m] + rest);
      SamePlace(s, Do(u, m), After(s, moves), p);
    }
  }

  lemma HolderOk(t: Tables, s: System, p: nat)
    requires Linear(t, s) && p in s.clients && s.clients[p].Active?
    ensures s.lock == Some(p) && WriterOk(s.committed, s.clients[p])
  {
    hide StateAt, Serial, WriterOk, SeesOneState;
    assert ClientOk(t, s, p);
  }

  lemma SamePlace(s: System, v: System, u: System, p: nat)
    requires p in s.clients && p in v.clients && (s.clients[p].Active? || s.clients[p].Ready?) && v.clients[p].Active?
    requires v.clients[p].op == s.clients[p].op && OpOk(s.clients[p].op)
    requires v.committed == s.committed && v.log == s.log && v.clients == s.clients[p := v.clients[p]]
    requires Served(v, u, p)
    ensures Served(s, u, p)
  {
    hide Step;
    assert v.clients[p := u.clients[p]] == s.clients[p := u.clients[p]];
  }

  /** The holder of the lock is never stuck: in every interleaving, wherever it is, it can by moves of its own come to
      be answered exactly what its operation does to the tables committed now. */
  lemma HolderCanAnswer(s: System, moves: seq<Move>, p: nat) returns (more: seq<Move>)
    requires Initial(s) && Possible(s, moves)
    requires p in After(s, moves).clients && After(s, moves).clients[p].Active?
    ensures OpOk(After(s, moves).clients[p].op) && Own(p, more)
    ensures Possible(s, moves + more) && Served(After(s, moves), After(s, moves + more), p)
  {
    hide Possible, After, Linear, Served, Initial, Own;
    EveryInterleavingIsSerial(s, moves);
    more := HolderIsServed(s.committed, After(s, moves), p);
    MovesConcat(s, moves, more);
  }

  /** Nor is a writer that waits: if the lock is free it can take it and be answered in the same way. */
  lemma WaiterCanAnswer(s: System, moves: seq<Move>, p: nat) returns (more: seq<Move>)
    requires Initial(s) && Possible(s, moves)
    requires After(s, moves).lock.None? && p in After(s, moves).clients && After(s, moves).clients[p].Ready?
    ensures OpOk(After(s, moves).clients[p].op) && Own(p, more)
    ensures Possible(s, moves + more) && Served(After(s, moves), After(s, moves + more), p)
  {
    hide Possible, After, Linear, Initial, Step;
    EveryInterleavingIsSerial(s, moves);
    var u := After(s, moves);
    assert OpOk(u.clients[p].op) by { WaiterOk(s.committed, u, p); }
    var v := Do(u, Begin(p));
    MoveKeepsLinear(s.committed, u, Begin(p));
    var rest := HolderIsServed(s.committed, v, p);
    MoveFirst(u, Begin(p), rest);
    more := [Begin(p)] + rest;
    MovesConcat(s, moves, more);
    SamePlace(u, v, After(v, rest), p);
  }

  lemma WaiterOk(t: Tables, s: System, p: nat)
    requires Linear(t, s) && p in s.clients && s.clients[p].Ready?
    ensures OpOk(s.clients[p].op)
  {
    hide StateAt, Serial, WriterOk, SeesOneState;
    assert ClientOk(t, s, p);
  }

  // ----- recall's two SELECTs

  /** The memories of one read with the lineage of another. */
  function Mixed(memories: Tables, lineage: Tables): Tables {
    lineage.(memories := memories.memories)
  }

  /** Under any interleaving the check of one SELECT against the other never fails for a reader that was done. */
  lemma CrossCheckHolds(s: System, moves: seq<Move>, p: nat, scope: Scope, i: nat, j: nat)
    requires Initial(s) && Valid(s.committed) && Possible(s, moves)
    requires var u := After(s, moves);
             p in u.clients && u.clients[p].Finished? && i < |u.clients[p].seen| && j < |u.clients[p].seen|
    ensures var seen := After(s, moves).clients[p].seen;
            Recallable(Mixed(seen[i], seen[j]), scope)
  {
    hide Possible, After, Step, Run, Valid, Recallable, WriterOk, Serial;
    EveryInterleavingIsSerial(s, moves);
    var u := After(s, moves);
    assert ClientOk(s.committed, u, p);
    var c := u.clients[p];
    var n: nat :| c.began <= n <= c.ended
      && forall k :: 0 <= k < |c.seen| ==> c.seen[k] == StateAt(s.committed, u.log, n);
    RunIsValid(s.committed, Ops(u.log[..n]));
    assert c.seen[i] == c.seen[j];
    assert Mixed(c.seen[i], c.seen[j]) == c.seen[i];
    ValidIsRecallable(c.seen[i], scope);
  }

  /** Reads of two different states would make it fail: whatever the state, a memory listed before it is forgotten has
      no lineage afterwards. */
  lemma TwoSnapshotsWouldFail(t: Tables, c: Command)
    requires Valid(t) && IsTime(c.occurredAt) && c.entityType.Memory? && c.action.Forget?
    requires Key(c.scope, c.entityId) in t.memories
    ensures !Recallable(Mixed(t, GovernStep(t, c).state), c.scope)
  {
    hide AuditReadable, EventsReadable, MemoriesReadable, KeysAgree, LineageAgrees, Keys, Tombs, ReadMemory, SourceRows;
    KnownStatus(t, Key(c.scope, c.entityId));
    assert Live(t, TombKey(c.scope, Memory, c.entityId));
    var u := Mixed(t, GovernStep(t, c).state);
    assert c.entityId in MemoryIds(u, c.scope);
    assert c.entityId !in EdgeOwners(u, c.scope);
  }

  // ----- refused operations leave no trace in the run

  function CommittedOps(log: seq<Entry>): (r: seq<Op>)
    ensures forall op :: op in r <==> exists e :: e in log && !e.reply.Failed? && e.op == op
  {
    assert log != [] ==> log == log[..|log| - 1] + [log[|log| - 1]];
    if log == [] then [] else
      var last := log[|log| - 1];
      CommittedOps(log[..|log| - 1]) + if last.reply.Failed? then [] else [last.op]
  }

  lemma CommittedSnoc(log: seq<Entry>, e: Entry)
    ensures CommittedOps(log + [e]) == if e.reply.Failed? then CommittedOps(log) else CommittedOps(log) + [e.op]
  {
    assert (log + [e])[..|log|] == log;
  }

  /** A serial log without its refusals runs to the same tables. */
  lemma {:induction false} CommittedSuffice(t: Tables, log: seq<Entry>)
    requires LogOk(log) && Serial(t, log)
    ensures OpsOk(CommittedOps(log)) && Run(t, CommittedOps(log)) == StateAt(t, log, |log|)
  {
    hide Step, StateAt, Run, Serial, CommittedOps;
    if log == [] {
      NothingAnswered(t);
    } else {
      var init, e := log[..|log| - 1], log[|log| - 1];
      assert log == init + [e];
      SerialShrinks(t, init, e);
      CommittedSuffice(t, init);
      NextState(t, init, e);
      CommittedSnoc(init, e);
      RunSnoc(t, CommittedOps(init), e.op);
      if e.reply.Failed? {
        RefusedKeepsState(StateAt(t, init, |init|), e.op);
      }
    }
  }

  /** In every interleaving, with failures anywhere, the committed tables are those of the committed operations alone,
      run one at a time in commit order. */
  lemma RefusalsLeaveNoTrace(s: System, moves: seq<Move>)
    requires Initial(s) && Possible(s, moves)
    ensures var u := After(s, moves);
            OpsOk(CommittedOps(u.log)) && u.committed == Run(s.committed, CommittedOps(u.log))
  {
    hide Possible, After, Serial, StateAt, Run, CommittedOps, ClientOk;
    EveryInterleavingIsSerial(s, moves);
    CommittedSuffice(s.committed, After(s, moves).log);
  }

  lemma NothingAnswered(t: Tables)
    ensures CommittedOps([]) == [] && Run(t, []) == StateAt(t, [], 0)
  {
  }

  lemma SerialShrinks(t: Tables, init: seq<Entry>, e: Entry)
    requires LogOk(init + [e]) && Serial(t, init + [e])
    ensures LogOk(init) && OpOk(e.op) && Serial(t, init) && e.reply == Step(StateAt(t, init, |init|), e.op).reply
  {
    hide Step, StateAt;
    var log := init + [e];
    assert log[|init|] == e;
    forall i | 0 <= i < |init|
      ensures OpOk(init[i].op)
    {
      assert log[i] == init[i];
    }
    forall i | 0 <= i <= |init|
      ensures StateAt(t, init, i) == StateAt(t, log, i)
    {
      Prefix(t, init, e, i);
    }
    forall i | 0 <= i < |init|
      ensures init[i].reply == Step(StateAt(t, init, i), init[i].op).reply
    {
      assert log[i] == init[i];
    }
  }
}
