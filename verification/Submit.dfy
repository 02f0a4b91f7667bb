/** Submitting a message on a bound session: handle_submit_sm in smpp-esme/smpp_esme.c with the account counters of
    smpp-esme/esme.c. One call is one atomic step. */
module Submission {
  import opened Common
  import opened SmscDirectory

  const BOUND := 1        // ESME_BINDED
  const UNCONNECTED := 4  // ESME_SMSC_UNCONNECTED

  /** A transmitting session: its session id, its status and the counters of esme.c. */
  datatype Tx = Tx(id: int, status: int, received: nat, sent: nat, rejected: nat, unconnect: nat)

  /** Limits of an account; -1 stands for no limit in maxSubmits and maxSubmitsUnconnect. */
  datatype Limits = Limits(maxTps: int, maxSubmits: int, maxSubmitsUnconnect: int, validFrom: int, validTo: int)

  /** An account: the rate window, its transmitting sessions, and the records written so far. */
  datatype Esme = Esme(
    msgCount: nat,
    esmTime: int,
    tx: seq<Tx>,
    esmeTable: seq<int>,
    misTable: seq<int>,
    forwarded: nat)

  /** What one submit finds outside the account. The clock reads start on entry and again when the rate window
      is opened; verify_pdu_para and rout_pdu are given by their results. */
  datatype Env = Env(
    start: int,
    again: int,
    running: bool,
    connected: bool,
    qLimit: int,
    qLen: nat,
    globalLimit: int,
    hour: int,
    reason: int,
    routable: bool,
    dnd: bool)

  // ---------------------------------------------------------------------------
  // What a submit means
  // ---------------------------------------------------------------------------

  function Unconnected(tx: seq<Tx>): nat {
    if tx == [] then 0 else Unconnected(tx[..|tx| - 1]) + tx[|tx| - 1].unconnect
  }

  datatype Gate = Gate(closed: bool, code: int)

  /** Everything that can refuse a submit on a transmitting session, in the order in which it is asked. A
      negative maxSubmits is compared as an unsigned number and so never refuses. */
  function Gates(l: Limits, s: Esme, i: nat, e: Env): (r: seq<Gate>)
    requires i < |s.tx|
    ensures |r| == 8
  {
    var t := s.tx[i];
    [ Gate(!e.running, 0x407),
      Gate(!e.connected && e.qLimit != -1 && e.qLen == e.qLimit, 0x409),
      Gate(e.globalLimit == 1, 0x40A),
      Gate(t.status == UNCONNECTED && l.maxSubmitsUnconnect != -1 && Unconnected(s.tx) >= l.maxSubmitsUnconnect, 0x14),
      Gate(t.status == BOUND && l.maxSubmits >= 0 && t.received >= l.maxSubmits, 0x14),
      Gate(e.hour <= l.validFrom || e.hour >= l.validTo, 0x11),
      Gate(e.reason != 0, e.reason),
      Gate(!e.routable, 0x45) ]
  }

  /** The code of the first closed gate from gate k on, or 0. */
  function FirstClosed(gates: seq<Gate>, k: nat): int
    requires k <= |gates|
    decreases |gates| - k
  {
    if k == |gates| then 0 else if gates[k].closed then gates[k].code else FirstClosed(gates, k + 1)
  }

  function Status(l: Limits, s: Esme, mode: int, i: nat, e: Env): int
    requires mode == 1 ==> i < |s.tx|
  {
    if mode != 1 then 0x400 else FirstClosed(Gates(l, s, i, e), 0)
  }

  /** Whether the submit is charged to the account's unconnected total: it got past the first five gates. */
  function Charged(l: Limits, s: Esme, i: nat, e: Env): bool
    requires i < |s.tx|
  {
    && (s.tx[i].status == UNCONNECTED || s.tx[i].status == BOUND)
    && forall k :: 0 <= k < 5 ==> !Gates(l, s, i, e)[k].closed
  }

  /** A new rate window opens when the old one is over-full. */
  predicate Reopens(l: Limits, s: Esme) { s.msgCount > l.maxTps }

  /** The second in which the submit is decided. */
  function DecidedAt(l: Limits, s: Esme, e: Env): int { if Reopens(l, s) then e.again else e.start }

  function After(l: Limits, s: Esme, mode: int, i: nat, e: Env): Esme
    requires mode == 1 ==> i < |s.tx|
  {
    var status := Status(l, s, mode, i, e);
    Esme(
      (if Reopens(l, s) then 0 else s.msgCount) + One(status == 0),
      if Reopens(l, s) then e.again else s.esmTime,
      if mode != 1 then s.tx else
        s.tx[i := s.tx[i].(received := s.tx[i].received + 1, sent := s.tx[i].sent + One(status == 0),
                           rejected := s.tx[i].rejected + One(status != 0),
                           unconnect := s.tx[i].unconnect + One(Charged(l, s, i, e)))],
      s.esmeTable + [status],
      s.misTable + (if status != 0 then [status] else []),
      s.forwarded + One(status == 0 && !e.dnd))
  }

  /** update_esme_conn for one account, given what check_smsc_conn says. */
  function Refreshed(tx: seq<Tx>, check: int): (r: seq<Tx>)
    ensures |r| == |tx|
    ensures forall k :: 0 <= k < |tx| ==> r[k] == RefreshedOne(tx[k], check)
  {
    seq(|tx|, k requires 0 <= k < |tx| => RefreshedOne(tx[k], check))
  }

  function RefreshedOne(t: Tx, check: int): Tx {
    if check == 0 || check == 1 then t.(status := UNCONNECTED)
    else if check == 2 && t.status == UNCONNECTED then t.(status := BOUND, unconnect := 0)
    else t
  }

  // ---------------------------------------------------------------------------
  // Runs
  // ---------------------------------------------------------------------------

  datatype Step =
    | Submit(i: nat, env: Env)
    | SubmitOnReceiver(env: Env)
    | Refresh(check: int)
    | Bind(id: int, status: int)
    | Destroy(i: nat)

  ghost predicate HasId(tx: seq<Tx>, id: int) { exists k :: 0 <= k < |tx| && tx[k].id == id }

  /** Sessions are given ids not in use, as the registry does. */
  ghost predicate Enabled(s: Esme, step: Step) {
    match step
    case Submit(i, _) => i < |s.tx|
    case Bind(id, _) => !HasId(s.tx, id)
    case Destroy(i) => i < |s.tx|
    case _ => true
  }

  ghost function Do(l: Limits, s: Esme, step: Step): Esme
    requires Enabled(s, step)
  {
    match step
    case Submit(i, e) => After(l, s, 1, i, e)
    case SubmitOnReceiver(e) => After(l, s, 2, 0, e)
    case Refresh(check) => s.(tx := Refreshed(s.tx, check))
    case Bind(id, status) => s.(tx := s.tx + [Tx(id, status, 0, 0, 0, 0)])
    case Destroy(i) => s.(tx := s.tx[..i] + s.tx[i + 1..])
  }

  /** A run, latest step last. */
  datatype Trace = Start | Then(before: Trace, step: Step)

  ghost function Fresh(now: int): Esme { Esme(0, now, [], [], [], 0) }

  /** The state after a trace, if the trace can happen. */
  ghost function State(l: Limits, now: int, t: Trace): Option<Esme> {
    match t
    case Start => Some(Fresh(now))
    case Then(before, step) =>
      var s := State(l, now, before);
      if s.None? || !Enabled(s.value, step) then None else Some(Do(l, s.value, step))
  }

  // ---------------------------------------------------------------------------
  // Conservation
  // ---------------------------------------------------------------------------

  ghost predicate Balanced(tx: seq<Tx>) {
    forall k :: 0 <= k < |tx| ==> tx[k].received == tx[k].sent + tx[k].rejected
  }

  ghost function Rejections(table: seq<int>): seq<int> {
    if table == [] then []
    else Rejections(table[..|table| - 1]) + (if table[|table| - 1] != 0 then [table[|table| - 1]] else [])
  }

  ghost function Submits(t: Trace): nat {
    match t
    case Start => 0
    case Then(b, step) => Submits(b) + One(step.Submit? || step.SubmitOnReceiver?)
  }

  lemma RejectionsAppend(table: seq<int>, x: int)
    ensures Rejections(table + [x]) == Rejections(table) + (if x != 0 then [x] else [])
  {
    assert (table + [x])[..|table|] == table;
  }

  /** After every step of every run: each session has received what it sent plus what it rejected, there is one
      smpp_esme record per submit, and the MIS records are exactly the rejected ones. */
  lemma {:induction false} RunBalances(l: Limits, now: int, t: Trace)
    requires State(l, now, t).Some?
    ensures var s := State(l, now, t).value;
            Balanced(s.tx) && |s.esmeTable| == Submits(t) && s.misTable == Rejections(s.esmeTable)
  {
    hide Status, Charged, Balanced;
    if t.Then? {
      RunBalances(l, now, t.before);
      var s := State(l, now, t.before).value;
      match t.step
      case Submit(i, e) =>
        RejectionsAppend(s.esmeTable, Status(l, s, 1, i, e));
        SubmitBalances(l, s, i, e);
      case SubmitOnReceiver(e) =>
        RejectionsAppend(s.esmeTable, Status(l, s, 2, 0, e));
      case Refresh(check) => RefreshBalances(s.tx, check);
      case Bind(id, status) => BindBalances(s.tx, id, status);
      case Destroy(i) => DestroyBalances(s.tx, i);
    } else {
      NothingBalances();
    }
  }

  lemma NothingBalances()
    ensures Balanced([])
  {
  }

  lemma SubmitBalances(l: Limits, s: Esme, i: nat, e: Env)
    requires i < |s.tx| && Balanced(s.tx)
    ensures Balanced(After(l, s, 1, i, e).tx)
  {
    hide Status, Charged;
    var u := After(l, s, 1, i, e).tx;
    assert forall k :: 0 <= k < |u| && k != i ==> u[k] == s.tx[k];
  }

  lemma RefreshBalances(tx: seq<Tx>, check: int)
    requires Balanced(tx)
    ensures Balanced(Refreshed(tx, check))
  {
  }

  lemma BindBalances(tx: seq<Tx>, id: int, status: int)
    requires Balanced(tx)
    ensures Balanced(tx + [Tx(id, status, 0, 0, 0, 0)])
  {
  }

  lemma DestroyBalances(tx: seq<Tx>, i: nat)
    requires Balanced(tx) && i < |tx|
    ensures Balanced(tx[..i] + tx[i + 1..])
  {
    var u := tx[..i] + tx[i + 1..];
    assert forall k :: 0 <= k < |u| ==> u[k] == tx[if k < i then k else k + 1];
  }

  lemma {:induction false} OpenIff(gates: seq<Gate>, n: nat)
    requires n <= |gates|
    requires forall k :: 0 <= k < |gates| && gates[k].closed ==> gates[k].code != 0
    ensures FirstClosed(gates, n) == 0 <==> forall k :: n <= k < |gates| ==> !gates[k].closed
    decreases |gates| - n
  {
    if n < |gates| {
      OpenIff(gates, n + 1);
    }
  }

  /** Status 0 holds exactly for the submits counted as sent, exactly when nothing refuses. */
  lemma SentIff(l: Limits, s: Esme, i: nat, e: Env)
    requires i < |s.tx|
    ensures var t := After(l, s, 1, i, e);
            && (t.tx[i].sent == s.tx[i].sent + 1 <==> Status(l, s, 1, i, e) == 0)
            && (Status(l, s, 1, i, e) == 0 <==> forall k :: 0 <= k < 8 ==> !Gates(l, s, i, e)[k].closed)
            && (t.tx[i].rejected == s.tx[i].rejected + 1 <==> Status(l, s, 1, i, e) != 0)
  {
    OpenIff(Gates(l, s, i, e), 0);
  }

  // ---------------------------------------------------------------------------
  // The gates, field by field
  // ---------------------------------------------------------------------------

  /** The SMSC process is away and the queue towards it is full. */
  ghost predicate QueueFull(e: Env) { !e.connected && e.qLimit != -1 && e.qLen == e.qLimit }

  /** What is charged to the account's sessions has reached the limit for the time without an SMSC. */
  ghost predicate UnconnectedFull(l: Limits, s: Esme, i: nat)
    requires i < |s.tx|
  {
    s.tx[i].status == 4 && l.maxSubmitsUnconnect != -1 && Unconnected(s.tx) >= l.maxSubmitsUnconnect
  }

  /** The bound session has received as many messages as it may. */
  ghost predicate BoundFull(l: Limits, s: Esme, i: nat)
    requires i < |s.tx|
  {
    s.tx[i].status == 1 && l.maxSubmits >= 0 && s.tx[i].received >= l.maxSubmits
  }

  ghost predicate OutOfHours(l: Limits, e: Env) { e.hour <= l.validFrom || e.hour >= l.validTo }

  /** Nothing outside the account refuses. */
  ghost predicate AllOpen(l: Limits, e: Env) {
    && e.running && (e.connected || e.qLimit == -1 || e.qLen != e.qLimit) && e.globalLimit != 1
    && l.validFrom < e.hour < l.validTo && e.reason == 0 && e.routable
  }

  /** Exactly when a submit is accepted; and which reason is given when several hold: the first in this order. */
  lemma StatusIff(l: Limits, s: Esme, i: nat, e: Env)
    requires i < |s.tx|
    ensures var v := Status(l, s, 1, i, e);
            && (v == 0 <==> AllOpen(l, e) && !UnconnectedFull(l, s, i) && !BoundFull(l, s, i))
            && (!e.running ==> v == 0x407)
            && (e.running && QueueFull(e) ==> v == 0x409)
            && (e.running && !QueueFull(e) && e.globalLimit == 1 ==> v == 0x40A)
            && (e.running && !QueueFull(e) && e.globalLimit != 1 ==>
                && (UnconnectedFull(l, s, i) || BoundFull(l, s, i) ==> v == 0x14)
                && (!UnconnectedFull(l, s, i) && !BoundFull(l, s, i) ==>
                    && (OutOfHours(l, e) ==> v == 0x11)
                    && (!OutOfHours(l, e) && e.reason != 0 ==> v == e.reason)
                    && (!OutOfHours(l, e) && e.reason == 0 && !e.routable ==> v == 0x45)))
  {
    var g := Gates(l, s, i, e);
    OpenIff(g, 0);
    FirstOf(g);
  }

  /** FirstClosed, written out for eight gates. */
  lemma FirstOf(g: seq<Gate>)
    requires |g| == 8
    ensures FirstClosed(g, 0) ==
            if g[0].closed then g[0].code else if g[1].closed then g[1].code else if g[2].closed then g[2].code
            else if g[3].closed then g[3].code else if g[4].closed then g[4].code else if g[5].closed then g[5].code
            else if g[6].closed then g[6].code else if g[7].closed then g[7].code else 0
  {
    assert FirstClosed(g, 7) == if g[7].closed then g[7].code else FirstClosed(g, 8);
    assert FirstClosed(g, 6) == if g[6].closed then g[6].code else FirstClosed(g, 7);
    assert FirstClosed(g, 5) == if g[5].closed then g[5].code else FirstClosed(g, 6);
    assert FirstClosed(g, 4) == if g[4].closed then g[4].code else FirstClosed(g, 5);
    assert FirstClosed(g, 3) == if g[3].closed then g[3].code else FirstClosed(g, 4);
    assert FirstClosed(g, 2) == if g[2].closed then g[2].code else FirstClosed(g, 3);
    assert FirstClosed(g, 1) == if g[1].closed then g[1].code else FirstClosed(g, 2);
  }

  /** On a receiving session every submit is refused. */
  lemma ReceiverRefuses(l: Limits, s: Esme, e: Env)
    ensures Status(l, s, 2, 0, e) == 0x400 && After(l, s, 2, 0, e).tx == s.tx
    ensures After(l, s, 2, 0, e).misTable == s.misTable + [0x400] && After(l, s, 2, 0, e).forwarded == s.forwarded
  {
  }

  /** A submit is charged exactly when it got as far as the quotas on a bound or unconnected session, and fits. */
  lemma ChargedIff(l: Limits, s: Esme, i: nat, e: Env)
    requires i < |s.tx|
    ensures Charged(l, s, i, e) <==>
            && (s.tx[i].status == 1 || s.tx[i].status == 4)
            && e.running && !QueueFull(e) && e.globalLimit != 1 && !UnconnectedFull(l, s, i) && !BoundFull(l, s, i)
  {
    var g := Gates(l, s, i, e);
    assert (forall k :: 0 <= k < 5 ==> !g[k].closed) <==>
      !g[0].closed && !g[1].closed && !g[2].closed && !g[3].closed && !g[4].closed;
  }

  /** What the check for connected SMSCs does to a session: 0 or 1 make it unconnected; 2 makes an unconnected one
      bound, with nothing charged; and nothing else changes. */
  lemma RefreshMeans(t: Tx, check: int)
    ensures var u := RefreshedOne(t, check);
            && u.id == t.id && u.received == t.received && u.sent == t.sent && u.rejected == t.rejected
            && u.status == (if check == 0 || check == 1 then 4 else if check == 2 && t.status == 4 then 1 else t.status)
            && u.unconnect == (if check == 2 && t.status == 4 then 0 else t.unconnect)
  {
  }

  // ---------------------------------------------------------------------------
  // Quotas
  // ---------------------------------------------------------------------------

  /** How many submits the session of that id has had accepted while bound, since it was created. */
  ghost function AcceptedBound(l: Limits, now: int, t: Trace, id: int): nat
    requires State(l, now, t).Some?
  {
    match t
    case Start => 0
    case Then(b, Bind(other, _)) => if other == id then 0 else AcceptedBound(l, now, b, id)
    case Then(b, Submit(i, e)) =>
      var s := State(l, now, b).value;
      AcceptedBound(l, now, b, id) + One(s.tx[i].id == id && s.tx[i].status == BOUND && Status(l, s, 1, i, e) == 0)
    case Then(b, _) => AcceptedBound(l, now, b, id)
  }

  ghost predicate DistinctIds(tx: seq<Tx>) {
    forall j, k :: 0 <= j < k < |tx| ==> tx[j].id != tx[k].id
  }

  /** What is accepted from a session while bound is part of what it has received. */
  ghost predicate WithinReceived(tx: seq<Tx>, id: int, accepted: nat) {
    forall k :: 0 <= k < |tx| && tx[k].id == id ==> accepted <= tx[k].received
  }

  /** Whatever happens in between, including sessions coming and going, a session gets at most maxSubmits messages
      accepted while it is bound. */
  lemma {:induction false} BoundQuota(l: Limits, now: int, t: Trace, id: int)
    requires State(l, now, t).Some? && l.maxSubmits >= 0
    ensures var s := State(l, now, t).value;
            && AcceptedBound(l, now, t, id) <= l.maxSubmits
            && DistinctIds(s.tx)
            && WithinReceived(s.tx, id, AcceptedBound(l, now, t, id))
  {
    hide DistinctIds, WithinReceived, Status, After;
    if t.Then? {
      BoundQuota(l, now, t.before, id);
      var s := State(l, now, t.before).value;
      var n := AcceptedBound(l, now, t.before, id);
      match t.step
      case Submit(i, e) => QuotaSubmit(l, s, i, e, id, n);
      case SubmitOnReceiver(e) => assert After(l, s, 2, 0, e).tx == s.tx by { ReceiverKeeps(l, s, e); }
      case Refresh(check) => QuotaRefresh(s.tx, check, id, n);
      case Bind(other, status) => QuotaBind(s.tx, other, status, id, n);
      case Destroy(i) => QuotaDestroy(s.tx, i, id, n);
    } else {
      QuotaStart(id);
    }
  }

  lemma QuotaStart(id: int)
    ensures DistinctIds([]) && WithinReceived([], id, 0)
  {
  }

  lemma ReceiverKeeps(l: Limits, s: Esme, e: Env)
    ensures After(l, s, 2, 0, e).tx == s.tx
  {
  }

  lemma QuotaSubmit(l: Limits, s: Esme, i: nat, e: Env, id: int, n: nat)
    requires i < |s.tx| && DistinctIds(s.tx) && WithinReceived(s.tx, id, n) && n <= l.maxSubmits
    ensures var u := After(l, s, 1, i, e);
            var m := n + One(s.tx[i].id == id && s.tx[i].status == BOUND && Status(l, s, 1, i, e) == 0);
            DistinctIds(u.tx) && WithinReceived(u.tx, id, m) && m <= l.maxSubmits
  {
    hide Status, Charged;
    var u := After(l, s, 1, i, e);
    assert forall k :: 0 <= k < |u.tx| && k != i ==> u.tx[k] == s.tx[k];
    assert u.tx[i].id == s.tx[i].id && u.tx[i].received == s.tx[i].received + 1;
    if s.tx[i].id == id && s.tx[i].status == BOUND {
      SentIff(l, s, i, e);
      assert Gates(l, s, i, e)[4].closed <==> s.tx[i].received >= l.maxSubmits;
    }
  }

  lemma QuotaRefresh(tx: seq<Tx>, check: int, id: int, n: nat)
    requires DistinctIds(tx) && WithinReceived(tx, id, n)
    ensures DistinctIds(Refreshed(tx, check)) && WithinReceived(Refreshed(tx, check), id, n)
  {
  }

  lemma QuotaBind(tx: seq<Tx>, other: int, status: int, id: int, n: nat)
    requires DistinctIds(tx) && WithinReceived(tx, id, n) && !HasId(tx, other)
    ensures var u := tx + [Tx(other, status, 0, 0, 0, 0)];
            DistinctIds(u) && WithinReceived(u, id, if other == id then 0 else n)
  {
  }

  lemma QuotaDestroy(tx: seq<Tx>, i: nat, id: int, n: nat)
    requires i < |tx| && DistinctIds(tx) && WithinReceived(tx, id, n)
    ensures DistinctIds(tx[..i] + tx[i + 1..]) && WithinReceived(tx[..i] + tx[i + 1..], id, n)
  {
    var u := tx[..i] + tx[i + 1..];
    assert forall k :: 0 <= k < |u| ==> u[k] == tx[if k < i then k else k + 1];
  }

  lemma {:induction false} UnconnectedUpdate(tx: seq<Tx>, i: nat, t: Tx)
    requires i < |tx|
    ensures Unconnected(tx[i := t]) == Unconnected(tx) - tx[i].unconnect + t.unconnect
    decreases |tx|
  {
    var n := |tx| - 1;
    if i < n {
      assert tx[i := t][..n] == tx[..n][i := t];
      UnconnectedUpdate(tx[..n], i, t);
    } else {
      assert tx[i := t][..n] == tx[..n];
    }
  }

  /** Every submit that gets past the first five gates is charged to the unconnected total, bound or not. */
  lemma SubmitCharges(l: Limits, s: Esme, i: nat, e: Env)
    requires i < |s.tx|
    ensures Unconnected(After(l, s, 1, i, e).tx) == Unconnected(s.tx) + One(Charged(l, s, i, e))
  {
    UnconnectedUpdate(s.tx, i, After(l, s, 1, i, e).tx[i]);
  }

  /** With no SMSC connected and every other gate open, a submit is refused if and only if the total charged to the
      account's sessions has reached the limit. */
  lemma UnconnectedRefusedIff(l: Limits, s: Esme, i: nat, e: Env)
    requires i < |s.tx| && s.tx[i].status == UNCONNECTED
    requires forall k :: 0 <= k < 8 && k != 3 ==> !Gates(l, s, i, e)[k].closed
    ensures Status(l, s, 1, i, e) != 0 <==> l.maxSubmitsUnconnect != -1 && Unconnected(s.tx) >= l.maxSubmitsUnconnect
    ensures Status(l, s, 1, i, e) != 0 ==> Status(l, s, 1, i, e) == 0x14
  {
    var g := Gates(l, s, i, e);
    OpenIff(g, 0);
    assert FirstClosed(g, 0) == FirstClosed(g, 1) == FirstClosed(g, 2) == FirstClosed(g, 3);
  }

  /** What was submitted while bound counts: with a limit of one, after one message accepted while bound the SMSCs
      go away, and the first message submitted then is refused. */
  lemma BoundUsesUpQuota(l: Limits, e: Env, now: int)
    requires l.maxTps >= 1 && l.maxSubmits < 0 && l.maxSubmitsUnconnect == 1 && l.validFrom < e.hour < l.validTo
    requires e.running && e.connected && e.globalLimit != 1 && e.reason == 0 && e.routable
    ensures var bound := Then(Start, Bind(1, BOUND));
            var lost := Then(Then(bound, Step.Submit(0, e)), Refresh(1));
            && State(l, now, bound).Some? && |State(l, now, bound).value.tx| == 1
            && State(l, now, lost).Some? && |State(l, now, lost).value.tx| == 1
            && Status(l, State(l, now, bound).value, 1, 0, e) == 0
            && Status(l, State(l, now, lost).value, 1, 0, e) == 0x14
  {
    var s := Fresh(now).(tx := [Tx(1, BOUND, 0, 0, 0, 0)]);
    var bound := Then(Start, Bind(1, BOUND));
    assert State(l, now, Start) == Some(Fresh(now)) && !HasId(Fresh(now).tx, 1);
    assert [] + [Tx(1, BOUND, 0, 0, 0, 0)] == [Tx(1, BOUND, 0, 0, 0, 0)];
    assert State(l, now, bound) == Some(s);
    OpenIff(Gates(l, s, 0, e), 0);
    var u := After(l, s, 1, 0, e);
    assert State(l, now, Then(bound, Step.Submit(0, e))) == Some(u);
    assert Charged(l, s, 0, e) && u.tx[0] == Tx(1, BOUND, 1, 1, 0, 1);
    var v := u.(tx := Refreshed(u.tx, 1));
    assert v.tx == [Tx(1, UNCONNECTED, 1, 1, 0, 1)] && v.tx[..0] == [];
    assert Unconnected(v.tx) == 1;
    UnconnectedRefusedIff(l, v, 0, e);
  }

  /** Submits accepted from a state on, through a list of submits. */
  ghost function AcceptedIn(l: Limits, s: Esme, steps: seq<(nat, Env)>): nat
    requires forall k :: 0 <= k < |steps| ==> steps[k].0 < |s.tx|
    decreases |steps|
  {
    if steps == [] then 0
    else One(Status(l, s, 1, steps[0].0, steps[0].1) == 0)
         + AcceptedIn(l, After(l, s, 1, steps[0].0, steps[0].1), steps[1..])
  }

  /** While no SMSC is connected, the sessions of an account together get at most maxSubmitsUnconnect messages
      accepted, less what is already charged to them. */
  lemma {:induction false} UnconnectedQuota(l: Limits, s: Esme, steps: seq<(nat, Env)>)
    requires forall k :: 0 <= k < |steps| ==> steps[k].0 < |s.tx|
    requires forall k :: 0 <= k < |s.tx| ==> s.tx[k].status == UNCONNECTED
    requires l.maxSubmitsUnconnect >= 0
    ensures AcceptedIn(l, s, steps) <= (if Unconnected(s.tx) <= l.maxSubmitsUnconnect then l.maxSubmitsUnconnect - Unconnected(s.tx) else 0)
    decreases |steps|
  {
    if steps != [] {
      var i, e := steps[0].0, steps[0].1;
      var t := After(l, s, 1, i, e);
      UnconnectedUpdate(s.tx, i, t.tx[i]);
      UnconnectedQuota(l, t, steps[1..]);
      SentIff(l, s, i, e);
      var g := Gates(l, s, i, e);
      assert g[3].closed <==> Unconnected(s.tx) >= l.maxSubmitsUnconnect;
      if Status(l, s, 1, i, e) == 0 {
        assert Charged(l, s, i, e);
      }
    }
  }

  /** If nothing else refuses them, exactly that many are accepted: the first ones. */
  lemma {:induction false} UnconnectedQuotaReached(l: Limits, s: Esme, steps: seq<(nat, Env)>)
    requires forall k :: 0 <= k < |steps| ==> steps[k].0 < |s.tx| && AllOpen(l, steps[k].1)
    requires forall k :: 0 <= k < |s.tx| ==> s.tx[k].status == UNCONNECTED
    requires l.maxSubmitsUnconnect >= 0
    ensures var room := l.maxSubmitsUnconnect - Unconnected(s.tx);
            AcceptedIn(l, s, steps) == if room < 0 then 0 else if room < |steps| then room else |steps|
    decreases |steps|
  {
    if steps != [] {
      var i, e := steps[0].0, steps[0].1;
      SubmitCharges(l, s, i, e);
      UnconnectedQuotaReached(l, After(l, s, 1, i, e), steps[1..]);
      UnconnectedRefusedIff(l, s, i, e);
      var g := Gates(l, s, i, e);
      assert g[3].closed <==> Unconnected(s.tx) >= l.maxSubmitsUnconnect;
      assert Charged(l, s, i, e) <==> !g[3].closed;
    }
  }

  // ---------------------------------------------------------------------------
  // The rate bound
  // ---------------------------------------------------------------------------

  ghost function LastSeen(l: Limits, now: int, t: Trace): int
    requires State(l, now, t).Some?
  {
    match t
    case Start => now
    case Then(b, Submit(_, e)) => DecidedAt(l, State(l, now, b).value, e)
    case Then(b, SubmitOnReceiver(e)) => DecidedAt(l, State(l, now, b).value, e)
    case Then(b, _) => LastSeen(l, now, b)
  }

  /** The clock never runs backwards, and the one-second sleep before a window in the same second is reopened is
      not cut short. */
  ghost predicate Clocked(l: Limits, s: Esme, last: int, e: Env) {
    && last <= e.start <= e.again
    && (Reopens(l, s) && e.start == s.esmTime ==> e.start + 1 <= e.again)
  }

  ghost predicate Monotone(l: Limits, now: int, t: Trace)
    requires State(l, now, t).Some?
  {
    match t
    case Start => true
    case Then(b, step) =>
      && Monotone(l, now, b)
      && (step.Submit? || step.SubmitOnReceiver? ==> Clocked(l, State(l, now, b).value, LastSeen(l, now, b), step.env))
  }

  /** Submits accepted in the seconds a..b. */
  ghost function AcceptedDuring(l: Limits, now: int, t: Trace, a: int, b: int): nat
    requires State(l, now, t).Some?
  {
    match t
    case Start => 0
    case Then(before, step) =>
      var s := State(l, now, before).value;
      AcceptedDuring(l, now, before, a, b) +
      One(step.Submit? && Status(l, s, 1, step.i, step.env) == 0 && a <= DecidedAt(l, s, step.env) <= b)
  }

  /** How many messages the windows opened so far can have let through in the seconds a..b, when the latest
      opened at w and has let through c. */
  ghost function Room(m: nat, a: int, b: int, w: int, c: nat): int {
    if w < a then c else if w <= b then (w - a + 1) * m + c else (b - a + 2) * m
  }

  lemma RoomReopens(m: nat, a: int, b: int, w: int, c: nat, v: int)
    requires a <= b && c <= m && w < v
    ensures Room(m, a, b, w, c) <= Room(m, a, b, v, 0) || v < a
  {
    if a <= w <= b && v <= b {
      assert (w - a + 1) * m + m == (w - a + 2) * m <= (v - a + 1) * m;
    } else if a <= w <= b {
      assert (w - a + 1) * m + m == (w - a + 2) * m <= (b - a + 2) * m;
    } else if w < a <= v <= b {
      assert m <= (v - a + 1) * m;
    } else if w < a && v > b {
      assert m <= (b - a + 2) * m;
    }
  }

  lemma RoomBound(m: nat, a: int, b: int, w: int, c: nat)
    requires a <= b && c <= m
    ensures Room(m, a, b, w, c) <= (b - a + 2) * m
  {
    RoomReopens(m, a, b, w, c, if w <= b then b + 1 else w + 1);
  }

  /** The window: msgCount stays within maxTps + 1, its opening second is not ahead of the clock, and what was
      accepted in any interval fits in the room. */
  lemma {:induction false} RateInvariant(l: Limits, now: int, t: Trace, a: int, b: int)
    requires State(l, now, t).Some? && l.maxTps >= 0 && Monotone(l, now, t) && a <= b
    ensures var s := State(l, now, t).value;
            && s.msgCount <= l.maxTps + 1
            && s.esmTime <= LastSeen(l, now, t)
            && AcceptedDuring(l, now, t, a, b) <= Room(l.maxTps + 1, a, b, s.esmTime, s.msgCount)
            && (LastSeen(l, now, t) < a ==> AcceptedDuring(l, now, t, a, b) == 0)
  {
    hide Status, Charged, Refreshed;
    if t.Then? {
      RateInvariant(l, now, t.before, a, b);
      var s := State(l, now, t.before).value;
      if (t.step.Submit? || t.step.SubmitOnReceiver?) && Reopens(l, s) {
        RoomReopens(l.maxTps + 1, a, b, s.esmTime, s.msgCount, t.step.env.again);
      }
    }
  }

  /** In the seconds a..b an account gets at most (b - a + 2) * (maxTps + 1) messages accepted. */
  lemma RateBound(l: Limits, now: int, t: Trace, a: int, b: int)
    requires State(l, now, t).Some? && l.maxTps >= 0 && Monotone(l, now, t) && a <= b
    ensures AcceptedDuring(l, now, t, a, b) <= (b - a + 2) * (l.maxTps + 1)
  {
    RateInvariant(l, now, t, a, b);
    var s := State(l, now, t).value;
    RoomBound(l.maxTps + 1, a, b, s.esmTime, s.msgCount);
  }

  /** Successive windows open in strictly increasing seconds. */
  lemma WindowsIncrease(l: Limits, now: int, t: Trace)
    requires t.Then? && State(l, now, t).Some? && l.maxTps >= 0 && Monotone(l, now, t)
    requires t.step.Submit? || t.step.SubmitOnReceiver?
    ensures var s := State(l, now, t.before).value;
            if Reopens(l, s) then State(l, now, t).value.esmTime > s.esmTime else State(l, now, t).value.esmTime == s.esmTime
  {
    RateInvariant(l, now, t.before, 0, 0);
  }

  // ---------------------------------------------------------------------------
  // The operations
  // ---------------------------------------------------------------------------

  /** is_smsc_present: 2 when a transmitting SMSC is connected, 1 when there is one but none is connected, 0 when
      there is none. */
  method IsSmscPresent(smscs: seq<Smsc>) returns (r: int)
    ensures 0 <= r <= 2
    ensures r == 2 <==> exists k :: 0 <= k < |smscs| && (smscs[k].mode == 1 || smscs[k].mode == 3) && smscs[k].status == 1
    ensures r == 0 <==> forall k :: 0 <= k < |smscs| ==> smscs[k].mode != 1 && smscs[k].mode != 3
  {
    r := 0;
    for i := 0 to |smscs|
      invariant r == 0 || r == 1
      invariant forall k :: 0 <= k < i && (smscs[k].mode == 1 || smscs[k].mode == 3) ==> smscs[k].status != 1
      invariant r == 0 <==> forall k :: 0 <= k < i ==> smscs[k].mode != 1 && smscs[k].mode != 3
    {
      if smscs[i].mode == 1 || smscs[i].mode == 3 {
        r := 1;
        if smscs[i].status == 1 {
          return 2;
        }
      }
    }
  }

  class EsmeAccount {
    const limits: Limits
    var msgCount: nat
    var esmTime: int
    var tx: seq<Tx>
    var esmeTable: seq<int>
    var misTable: seq<int>
    var forwarded: nat

    ghost function View(): Esme
      reads this
    {
      Esme(msgCount, esmTime, tx, esmeTable, misTable, forwarded)
    }

    constructor (l: Limits, now: int)
      ensures limits == l && View() == Fresh(now)
    {
      limits := l;
      msgCount, esmTime, tx, esmeTable, misTable, forwarded := 0, now, [], [], [], 0;
    }

    method MaxSubmitsUnctAccount() returns (number: nat)
      ensures number == Unconnected(tx)
    {
      number := 0;
      if |tx| == 0 {
        return;
      }
      for i := 0 to |tx|
        invariant number == Unconnected(tx[..i])
      {
        assert tx[..i + 1][..i] == tx[..i];
        number := number + tx[i].unconnect;
      }
      assert tx[..|tx|] == tx;
    }

    method UpdateEsmeConn(check: int)
      modifies `tx
      ensures tx == Refreshed(old(tx), check)
    {
      ghost var was := tx;
      if check == 0 || check == 1 {
        for j := 0 to |tx|
          invariant |tx| == |was|
          invariant forall k :: 0 <= k < j ==> tx[k] == RefreshedOne(was[k], check)
          invariant forall k :: j <= k < |tx| ==> tx[k] == was[k]
        {
          if tx[j].status != UNCONNECTED {
            tx := tx[j := tx[j].(status := UNCONNECTED)];
          }
        }
      } else if check == 2 {
        for j := 0 to |tx|
          invariant |tx| == |was|
          invariant forall k :: 0 <= k < j ==> tx[k] == RefreshedOne(was[k], check)
          invariant forall k :: j <= k < |tx| ==> tx[k] == was[k]
        {
          if tx[j].status == UNCONNECTED {
            tx := tx[j := tx[j].(status := BOUND, unconnect := 0)];
          }
        }
      }
    }

    /** The part of handle_submit_sm before the label ret, on a transmitting session. */
    method Decide(i: nat, e: Env) returns (status: int)
      requires i < |tx|
      modifies `tx, `msgCount, `forwarded
      ensures status == Status(limits, old(View()), 1, i, e)
      ensures tx == old(tx)[i := old(tx)[i].(
                sent := old(tx)[i].sent + One(status == 0), rejected := old(tx)[i].rejected + One(status != 0),
                unconnect := old(tx)[i].unconnect + One(Charged(limits, old(View()), i, e)))]
      ensures msgCount == old(msgCount) + One(status == 0)
      ensures forwarded == old(forwarded) + One(status == 0 && !e.dnd)
    {
      ghost var g := Gates(limits, View(), i, e);
      if !e.running {
        Reject(i);
        return 0x407;
      }
      if !e.connected {
        if e.qLimit != -1 && e.qLen == e.qLimit {
          assert FirstClosed(g, 0) == FirstClosed(g, 1);
          Reject(i);
          return 0x409;
        }
      }
      assert FirstClosed(g, 0) == FirstClosed(g, 1) == FirstClosed(g, 2);
      if e.globalLimit == 1 {
        Reject(i);
        return 0x40A;
      }
      assert FirstClosed(g, 2) == FirstClosed(g, 3);
      var charged := Charge(i);
      if !charged {
        assert g[3].closed || g[4].closed;
        assert FirstClosed(g, 3) == 0x14;
        Reject(i);
        return 0x14;
      }
      assert FirstClosed(g, 3) == FirstClosed(g, 4) == FirstClosed(g, 5);
      if e.hour <= limits.validFrom || e.hour >= limits.validTo {
        Reject(i);
        return 0x11;
      }
      assert FirstClosed(g, 5) == FirstClosed(g, 6);
      if e.reason != 0 {
        Reject(i);
        return e.reason;
      }
      assert FirstClosed(g, 6) == FirstClosed(g, 7);
      if !e.routable {
        Reject(i);
        return 0x45;
      }
      assert FirstClosed(g, 7) == FirstClosed(g, 8) == 0;
      if !e.dnd {
        forwarded := forwarded + 1;
      }
      tx := tx[i := tx[i].(sent := tx[i].sent + 1)];
      msgCount := msgCount + 1;
      status := 0;
    }

    /** The two quotas: over one, or charged to the session. */
    method Charge(i: nat) returns (ok: bool)
      requires i < |tx|
      modifies `tx
      ensures ok <==>
                && !(old(tx)[i].status == UNCONNECTED && limits.maxSubmitsUnconnect != -1
                     && Unconnected(old(tx)) >= limits.maxSubmitsUnconnect)
                && !(old(tx)[i].status == BOUND && limits.maxSubmits >= 0 && old(tx)[i].received >= limits.maxSubmits)
      ensures tx == old(tx)[i := old(tx)[i].(unconnect := old(tx)[i].unconnect
                + One(ok && (old(tx)[i].status == UNCONNECTED || old(tx)[i].status == BOUND)))]
    {
      if tx[i].status == UNCONNECTED {
        var n := MaxSubmitsUnctAccount();
        if limits.maxSubmitsUnconnect != -1 && n >= limits.maxSubmitsUnconnect {
          return false;
        } else {
          tx := tx[i := tx[i].(unconnect := tx[i].unconnect + 1)];
        }
      }
      if tx[i].status == BOUND {
        if limits.maxSubmits >= 0 && tx[i].received >= limits.maxSubmits {
          return false;
        } else {
          tx := tx[i := tx[i].(unconnect := tx[i].unconnect + 1)];
        }
      }
      ok := true;
    }

    method Reject(i: nat)
      requires i < |tx|
      modifies `tx
      ensures tx == old(tx)[i := old(tx)[i].(rejected := old(tx)[i].rejected + 1)]
    {
      tx := tx[i := tx[i].(rejected := tx[i].rejected + 1)];
    }

    /** handle_submit_sm; mode is 1 on the thread of a transmitting or transceiving session, 2 on a receiving one. */
    method HandleSubmitSm(mode: int, i: nat, e: Env) returns (status: int)
      requires mode == 2 || (mode == 1 && i < |tx|)
      modifies this
      ensures status == Status(limits, old(View()), mode, i, e)
      ensures View() == After(limits, old(View()), mode, i, e)
      ensures msgCount == (if old(msgCount) > limits.maxTps then 0 else old(msgCount)) + One(status == 0)
      ensures esmTime == if old(msgCount) > limits.maxTps then e.again else old(esmTime)
      ensures forwarded == old(forwarded) + One(status == 0 && !e.dnd)
      ensures esmeTable == old(esmeTable) + [status] && misTable == old(misTable) + if status != 0 then [status] else []
      ensures mode == 2 ==> status == 0x400 && tx == old(tx)
      ensures |tx| == |old(tx)| && forall k :: 0 <= k < |tx| && k != i ==> tx[k] == old(tx)[k]
      ensures mode == 1 ==>
                && tx[i].id == old(tx)[i].id && tx[i].status == old(tx)[i].status
                && tx[i].received == old(tx)[i].received + 1
                && tx[i].sent == old(tx)[i].sent + One(status == 0)
                && tx[i].rejected == old(tx)[i].rejected + One(status != 0)
    {
      if msgCount > limits.maxTps {
        esmTime := e.again;
        msgCount := 0;
      }
      if mode == 2 {
        status := 0x400;
      } else {
        status := Decide(i, e);
      }
      esmeTable := esmeTable + [status];
      if status != 0 {
        misTable := misTable + [status];
      }
      if mode == 1 {
        tx := tx[i := tx[i].(received := tx[i].received + 1)];
      }
    }
  }
}
