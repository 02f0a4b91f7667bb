/** The poll set of gwlib/fdset.c.

    Four parallel arrays hold one slot per registered file descriptor. Callbacks run
    while the poller scans the table and may register, re-mask and unregister
    descriptors. The table is shown to refine a map from descriptor to registration,
    and one scan is related to its history: the calls made and the operations the
    callbacks performed, in order.
  */
module PollSet {
  import opened Common

  /** An event word is the set of its bits. */
  datatype Flag = POLLIN | POLLPRI | POLLOUT | POLLERR | POLLHUP | POLLNVAL

  type Bits = set<Flag>

  /** (word & ~mask) | (events & mask) */
  function Copied(word: Bits, mask: Bits, events: Bits): Bits { (word - mask) + (events * mask) }

  /** word & (events | ~mask) */
  function Cleared(word: Bits, mask: Bits, events: Bits): Bits { (word * events) + (word - mask) }

  datatype PollFd = PollFd(fd: int, events: Bits, revents: Bits)

  /** One row across the four arrays. */
  datatype Slot = Slot(poll: PollFd, callback: int, data: int, time: int)

  /** What the abstract map records for a descriptor. */
  datatype Reg = Reg(events: Bits, callback: int, data: int)

  /** An operation on the set; `at` is what time() returned inside it. */
  datatype Op =
    | Register(fd: int, events: Bits, callback: int, data: int, at: int)
    | Listen(fd: int, mask: Bits, events: Bits, at: int)
    | Unregister(fd: int)

  // ---------------------------------------------------------------------------
  // The abstract map
  // ---------------------------------------------------------------------------

  type Regs = map<int, Reg>

  ghost function ApplyOp(m: Regs, op: Op): Regs {
    match op
    case Register(fd, events, callback, data, _) => m[fd := Reg(events, callback, data)]
    case Listen(fd, mask, events, _) =>
      if fd in m then m[fd := m[fd].(events := Copied(m[fd].events, mask, events))] else m
    case Unregister(fd) => m - {fd}
  }

  /** Callers pass real descriptors and do not register one twice. */
  ghost predicate Legal(m: Regs, op: Op) {
    op.fd >= 0 && (op.Register? ==> op.fd !in m)
  }

  ghost function ApplyAll(m: Regs, ops: seq<Op>): Regs
    decreases |ops|
  {
    if ops == [] then m else ApplyAll(ApplyOp(m, ops[0]), ops[1..])
  }

  ghost predicate LegalAll(m: Regs, ops: seq<Op>)
    decreases |ops|
  {
    ops == [] || (Legal(m, ops[0]) && LegalAll(ApplyOp(m, ops[0]), ops[1..]))
  }

  /** The map once the first k callbacks of a scan have run. */
  ghost function MapAfter(m: Regs, react: nat -> seq<Op>, k: nat): Regs {
    if k == 0 then m else ApplyAll(MapAfter(m, react, k - 1), react(k - 1))
  }

  /** The clock does not run backwards past now while ops are performed. */
  ghost predicate Timely(ops: seq<Op>, now: int) {
    forall i :: 0 <= i < |ops| ==> ops[i].Unregister? || ops[i].at >= now
  }

  /** The callbacks of a scan begun at map m and time now may do anything legal. */
  ghost predicate Scripted(m: Regs, react: nat -> seq<Op>, now: int) {
    forall k: nat :: LegalAll(MapAfter(m, react, k), react(k)) && Timely(react(k), now)
  }

  lemma MapAtStart(m: Regs, react: nat -> seq<Op>)
    ensures MapAfter(m, react, 0) == m
  {
  }

  lemma ScriptedAt(m: Regs, react: nat -> seq<Op>, now: int, k: nat)
    requires Scripted(m, react, now)
    ensures LegalAll(MapAfter(m, react, k), react(k)) && Timely(react(k), now)
    ensures MapAfter(m, react, k + 1) == ApplyAll(MapAfter(m, react, k), react(k))
  {
  }

  // ---------------------------------------------------------------------------
  // The table, as a sequence of slots
  // ---------------------------------------------------------------------------

  ghost predicate Live(x: Slot) { x.poll.fd >= 0 }

  /** The live rows agree with the map, and no descriptor has two rows; tombstones hold -1. */
  ghost predicate Rows(s: seq<Slot>, m: Regs) {
    && (forall i :: 0 <= i < |s| ==> s[i].poll.fd >= -1)
    && (forall i :: 0 <= i < |s| && Live(s[i]) ==>
          s[i].poll.fd in m && m[s[i].poll.fd] == Reg(s[i].poll.events, s[i].callback, s[i].data))
    && (forall i, j :: 0 <= i < |s| && 0 <= j < |s| && Live(s[i]) && s[i].poll.fd == s[j].poll.fd ==> i == j)
  }

  ghost predicate HasRow(s: seq<Slot>, fd: int) {
    exists i :: 0 <= i < |s| && s[i].poll.fd == fd
  }

  /** The live rows are exactly the map. */
  ghost predicate Rep(s: seq<Slot>, m: Regs) {
    Rows(s, m) && forall fd :: fd in m ==> fd >= 0 && HasRow(s, fd)
  }

  /** Total weight of the rows from lo on. */
  ghost function Sum(s: seq<Slot>, lo: nat, w: Slot -> nat): nat {
    if |s| <= lo then 0 else Sum(s[..|s| - 1], lo, w) + w(s[|s| - 1])
  }

  ghost function Tomb(x: Slot): nat { if Live(x) then 0 else 1 }

  /** What `deleted_entries` is meant to count. */
  ghost function Tombs(s: seq<Slot>): nat { Sum(s, 0, Tomb) }

  lemma {:induction false} SumUpdate(s: seq<Slot>, lo: nat, w: Slot -> nat, i: nat, x: Slot)
    requires i < |s|
    ensures Sum(s[i := x], lo, w) == Sum(s, lo, w) + (if lo <= i then w(x) - w(s[i]) else 0)
    decreases |s|
  {
    if lo < |s| {
      var n := |s| - 1;
      if i == n {
        assert s[i := x][..n] == s[..n];
      } else {
        assert s[i := x][..n] == s[..n][i := x];
        SumUpdate(s[..n], lo, w, i, x);
      }
    }
  }

  lemma SumAppend(s: seq<Slot>, lo: nat, w: Slot -> nat, x: Slot)
    ensures Sum(s + [x], lo, w) == Sum(s, lo, w) + (if lo <= |s| then w(x) else 0)
  {
    assert (s + [x])[..|s|] == s;
  }

  lemma {:induction false} SumAdvance(s: seq<Slot>, lo: nat, w: Slot -> nat)
    requires lo < |s|
    ensures Sum(s, lo, w) == w(s[lo]) + Sum(s, lo + 1, w)
    decreases |s|
  {
    if lo < |s| - 1 {
      SumAdvance(s[..|s| - 1], lo, w);
    }
  }

  lemma {:induction false} NoTombs(s: seq<Slot>)
    ensures Tombs(s) == 0 <==> forall i :: 0 <= i < |s| ==> Live(s[i])
    decreases |s|
  {
    if s != [] {
      NoTombs(s[..|s| - 1]);
      assert Tombs(s) == Tombs(s[..|s| - 1]) + Tomb(s[|s| - 1]);
      assert forall i :: 0 <= i < |s| - 1 ==> s[..|s| - 1][i] == s[i];
    }
  }

  /** The linear search of find_entry. */
  ghost function IndexOf(s: seq<Slot>, fd: int, start: nat): (r: int)
    requires start <= |s|
    ensures r == -1 || (start <= r < |s| && s[r].poll.fd == fd)
    ensures r == -1 ==> forall i :: start <= i < |s| ==> s[i].poll.fd != fd
    decreases |s| - start
  {
    if start == |s| then -1 else if s[start].poll.fd == fd then start else IndexOf(s, fd, start + 1)
  }

  /** remove_entry: the last row fills the hole. */
  ghost function Removed(s: seq<Slot>, e: nat): seq<Slot>
    requires e < |s|
  {
    if e == |s| - 1 then s[..e] else s[..|s| - 1][e := s[|s| - 1]]
  }

  ghost function Relisten(x: Slot, mask: Bits, events: Bits, at: int, scanning: bool): Slot {
    Slot(PollFd(x.poll.fd,
                Copied(x.poll.events, mask, events),
                if scanning then Cleared(x.poll.revents, mask, events) else x.poll.revents),
         x.callback, x.data, at)
  }

  ghost function Buried(x: Slot): Slot { x.(poll := x.poll.(fd := -1)) }

  /** The effect of an operation on the table. */
  ghost function Step(s: seq<Slot>, op: Op, scanning: bool): seq<Slot> {
    match op
    case Register(fd, events, callback, data, at) => s + [Slot(PollFd(fd, events, {}), callback, data, at)]
    case Listen(fd, mask, events, at) =>
      var e := IndexOf(s, fd, 0);
      if e < 0 then s else s[e := Relisten(s[e], mask, events, at, scanning)]
    case Unregister(fd) =>
      var e := IndexOf(s, fd, 0);
      if e < 0 then s
      else if e == |s| - 1 then s[..e]
      else if scanning then s[e := Buried(s[e])]
      else Removed(s, e)
  }

  lemma RemovedSum(s: seq<Slot>, e: nat, w: Slot -> nat)
    requires e < |s|
    ensures Sum(Removed(s, e), 0, w) == Sum(s, 0, w) - w(s[e])
  {
    var n := |s| - 1;
    if e < n {
      SumUpdate(s[..n], 0, w, e, s[n]);
    }
  }

  lemma RemovedRows(s: seq<Slot>, e: nat, m: Regs)
    requires Rep(s, m) && e < |s|
    ensures forall i :: 0 <= i < |s| && i != e ==> HasRow(Removed(s, e), s[i].poll.fd)
    ensures Rows(Removed(s, e), m - {s[e].poll.fd})
  {
    var t, n := Removed(s, e), |s| - 1;
    forall i | 0 <= i < |s| && i != e
      ensures HasRow(t, s[i].poll.fd)
    {
      assert t[if i == n then e else i].poll.fd == s[i].poll.fd;
    }
    forall i | 0 <= i < |t|
      ensures t[i] == s[if i == e then n else i]
    {
    }
  }

  /** Dropping a row drops its descriptor, if it still had one, and nothing else. */
  lemma RemovedRefines(s: seq<Slot>, e: nat, m: Regs)
    requires Rep(s, m) && e < |s|
    ensures Rep(Removed(s, e), m - {s[e].poll.fd})
    ensures Tombs(Removed(s, e)) == Tombs(s) - Tomb(s[e])
  {
    RemovedSum(s, e, Tomb);
    RemovedRows(s, e, m);
  }

  lemma DropTomb(s: seq<Slot>, e: nat, m: Regs)
    requires Rep(s, m) && e < |s| && !Live(s[e])
    ensures Rep(Removed(s, e), m) && Tombs(Removed(s, e)) == Tombs(s) - 1
  {
    RemovedRefines(s, e, m);
    assert m - {s[e].poll.fd} == m;
  }

  lemma RepAt(s: seq<Slot>, m: Regs, fd: int)
    requires Rep(s, m) && fd >= 0
    ensures fd in m <==> IndexOf(s, fd, 0) >= 0
  {
    if fd in m {
      assert HasRow(s, fd);
    }
  }

  lemma UpdatedRows(s: seq<Slot>, e: nat, x: Slot)
    requires e < |s|
    ensures forall fd :: HasRow(s, fd) && fd != s[e].poll.fd ==> HasRow(s[e := x], fd)
    ensures HasRow(s[e := x], x.poll.fd)
  {
    var t := s[e := x];
    forall fd | HasRow(s, fd) && fd != s[e].poll.fd
      ensures HasRow(t, fd)
    {
      var i :| 0 <= i < |s| && s[i].poll.fd == fd;
      assert t[i].poll.fd == fd;
    }
    assert t[e].poll.fd == x.poll.fd;
  }

  lemma BuriedRefines(s: seq<Slot>, e: nat, m: Regs)
    requires Rep(s, m) && e < |s| && Live(s[e])
    ensures Rep(s[e := Buried(s[e])], m - {s[e].poll.fd})
    ensures Tombs(s[e := Buried(s[e])]) == Tombs(s) + 1
  {
    SumUpdate(s, 0, Tomb, e, Buried(s[e]));
    UpdatedRows(s, e, Buried(s[e]));
  }

  lemma RelistenRefines(s: seq<Slot>, e: nat, x: Slot, m: Regs)
    requires Rep(s, m) && e < |s| && Live(s[e])
    requires x.poll.fd == s[e].poll.fd && x.callback == s[e].callback && x.data == s[e].data
    ensures Rep(s[e := x], m[x.poll.fd := m[x.poll.fd].(events := x.poll.events)])
    ensures Tombs(s[e := x]) == Tombs(s)
  {
    SumUpdate(s, 0, Tomb, e, x);
    UpdatedRows(s, e, x);
  }

  lemma RegisterRefines(s: seq<Slot>, x: Slot, m: Regs)
    requires Rep(s, m) && Live(x) && x.poll.fd !in m
    ensures Rep(s + [x], m[x.poll.fd := Reg(x.poll.events, x.callback, x.data)])
    ensures Tombs(s + [x]) == Tombs(s)
  {
    SumAppend(s, 0, Tomb, x);
    var t := s + [x];
    forall fd | HasRow(s, fd)
      ensures HasRow(t, fd)
    {
      var i :| 0 <= i < |s| && s[i].poll.fd == fd;
      assert t[i].poll.fd == fd;
    }
    assert t[|s|].poll.fd == x.poll.fd;
  }

  /** Does op leave a tombstone? Only an unregister of a row that is not the last, inside a scan. */
  ghost predicate Buries(s: seq<Slot>, op: Op, scanning: bool) {
    scanning && op.Unregister? && 0 <= IndexOf(s, op.fd, 0) < |s| - 1
  }

  /** Every operation moves the table exactly as the map moves, and the tombstones are those it buried. */
  lemma StepRefines(s: seq<Slot>, op: Op, scanning: bool, m: Regs)
    requires Rep(s, m) && Legal(m, op)
    ensures Rep(Step(s, op, scanning), ApplyOp(m, op))
    ensures Tombs(Step(s, op, scanning)) == Tombs(s) + (if Buries(s, op, scanning) then 1 else 0)
  {
    match op
    case Register(fd, events, callback, data, at) =>
      RegisterRefines(s, Slot(PollFd(fd, events, {}), callback, data, at), m);
    case Listen(_, _, _, _) => ListenRefines(s, op, scanning, m);
    case Unregister(_) => UnregisterRefines(s, op, scanning, m);
  }

  lemma ListenRefines(s: seq<Slot>, op: Op, scanning: bool, m: Regs)
    requires Rep(s, m) && op.fd >= 0 && op.Listen?
    ensures Rep(Step(s, op, scanning), ApplyOp(m, op)) && Tombs(Step(s, op, scanning)) == Tombs(s)
  {
    var e := IndexOf(s, op.fd, 0);
    RepAt(s, m, op.fd);
    if e >= 0 {
      RelistenRefines(s, e, Relisten(s[e], op.mask, op.events, op.at, scanning), m);
    }
  }

  /** The same descriptor, callback and data at a new time; the events in the mask as given and the others as they
      were; and of the events pending, during a scan those in the mask and not given are gone, and no others. */
  ghost predicate Relistened(x: Slot, y: Slot, mask: Bits, events: Bits, at: int, scanning: bool) {
    && y.poll.fd == x.poll.fd && y.callback == x.callback && y.data == x.data && y.time == at
    && (forall b :: b in y.poll.events <==> if b in mask then b in events else b in x.poll.events)
    && (forall b :: b in y.poll.revents <==> b in x.poll.revents && !(scanning && b in mask && b !in events))
  }

  lemma ListenMeans(s: seq<Slot>, fd: int, mask: Bits, events: Bits, at: int, scanning: bool, m: Regs)
    requires Rep(s, m) && fd >= 0
    ensures var t := Step(s, Listen(fd, mask, events, at), scanning);
            && |t| == |s|
            && forall i :: 0 <= i < |s| ==>
                 if t[i].poll.fd == fd then Relistened(s[i], t[i], mask, events, at, scanning) else t[i] == s[i]
  {
    var e := IndexOf(s, fd, 0);
    if e >= 0 {
      RelistenMeans(s[e], mask, events, at, scanning);
      assert forall i :: 0 <= i < |s| && s[i].poll.fd == fd ==> i == e;
    }
  }

  lemma RelistenMeans(x: Slot, mask: Bits, events: Bits, at: int, scanning: bool)
    ensures Relistened(x, Relisten(x, mask, events, at, scanning), mask, events, at, scanning)
  {
  }

  lemma UnregisterRefines(s: seq<Slot>, op: Op, scanning: bool, m: Regs)
    requires Rep(s, m) && op.fd >= 0 && op.Unregister?
    ensures Rep(Step(s, op, scanning), ApplyOp(m, op))
    ensures Tombs(Step(s, op, scanning)) == Tombs(s) + (if Buries(s, op, scanning) then 1 else 0)
  {
    var e := IndexOf(s, op.fd, 0);
    RepAt(s, m, op.fd);
    if e < 0 {
      assert m - {op.fd} == m;
    } else if Buries(s, op, scanning) {
      BuriedRefines(s, e, m);
    } else {
      RemovedRefines(s, e, m);
    }
  }

  // ---------------------------------------------------------------------------
  // The history of one scan
  // ---------------------------------------------------------------------------

  /** `polled` tells a callback for poll() events from one for an idle timeout. */
  datatype Event =
    | Did(op: Op)
    | Called(fd: int, revents: Bits, callback: int, data: int, polled: bool)

  datatype History = Begin | Then(before: History, event: Event)

  ghost function Current(m: Regs, h: History): Regs {
    match h
    case Begin => m
    case Then(b, Did(op)) => ApplyOp(Current(m, b), op)
    case Then(b, _) => Current(m, b)
  }

  /** Has fd been unregistered in this scan? */
  ghost predicate Dropped(h: History, fd: int) {
    h.Then? && ((h.event.Did? && h.event.op == Unregister(fd)) || Dropped(h.before, fd))
  }

  /** Registered when the scan began and ever since. */
  ghost predicate Kept(m: Regs, h: History, fd: int) { fd in m && !Dropped(h, fd) }

  ghost predicate Polled(h: History, fd: int) {
    h.Then? && ((h.event.Called? && h.event.polled && h.event.fd == fd) || Polled(h.before, fd))
  }

  /** The pending bits of fd that no later fdset_listen turned off. */
  ghost function Unmasked(r: Bits, h: History, fd: int): Bits {
    match h
    case Begin => r
    case Then(b, Did(Listen(f, mask, events, _))) =>
      if f == fd then Cleared(Unmasked(r, b, fd), mask, events) else Unmasked(r, b, fd)
    case Then(b, _) => Unmasked(r, b, fd)
  }

  /** What may happen next after h, when the scan began with map m and pending bits r. */
  ghost predicate GoodEvent(m: Regs, r: map<int, Bits>, h: History, e: Event)
    requires r.Keys == m.Keys
  {
    match e
    case Did(op) => Legal(Current(m, h), op)
    case Called(fd, revents, callback, data, polled) =>
      && (fd >= 0 ==>
            && fd in Current(m, h)
            && callback == Current(m, h)[fd].callback
            && data == Current(m, h)[fd].data)
      && (fd >= 0 && polled ==>
            && Kept(m, h, fd)
            && !Polled(h, fd)
            && revents == Unmasked(r[fd], h, fd))
      && (fd < 0 ==> fd == -1)
      && (polled ==> revents != {})
      && (!polled ==> revents == {POLLERR})
  }

  ghost predicate GoodHistory(m: Regs, r: map<int, Bits>, h: History)
    requires r.Keys == m.Keys
  {
    h.Then? ==> GoodHistory(m, r, h.before) && GoodEvent(m, r, h.before, h.event)
  }

  /** An event of the scan, after history h. */
  ghost predicate Occurs(h: History, e: Event, whole: History) {
    whole.Then? && ((whole.before == h && whole.event == e) || Occurs(h, e, whole.before))
  }

  lemma {:induction false} EveryEventGood(m: Regs, r: map<int, Bits>, h: History, e: Event, whole: History)
    requires r.Keys == m.Keys && GoodHistory(m, r, whole) && Occurs(h, e, whole)
    ensures GoodHistory(m, r, h) && GoodEvent(m, r, h, e)
  {
    if !(whole.before == h && whole.event == e) {
      EveryEventGood(m, r, h, e, whole.before);
    }
  }

  /** Some fdset_listen of fd in h turned the event off: it was in the mask and not among the events. */
  ghost predicate TurnedOff(h: History, fd: int, b: Flag) {
    h.Then? &&
    (|| (h.event.Did? && h.event.op.Listen? && h.event.op.fd == fd && b in h.event.op.mask && b !in h.event.op.events)
     || TurnedOff(h.before, fd, b))
  }

  /** The events left pending are those reported that no fdset_listen turned off, and no others. */
  lemma {:induction false} UnmaskedIff(r: Bits, h: History, fd: int, b: Flag)
    ensures b in Unmasked(r, h, fd) <==> b in r && !TurnedOff(h, fd, b)
  {
    if h.Then? {
      UnmaskedIff(r, h.before, fd, b);
    }
  }

  /** Some fdset_register of fd after its last unregister in h. */
  ghost predicate Back(h: History, fd: int) {
    h.Then? &&
    if h.event.Did? && h.event.op.fd == fd && !h.event.op.Listen? then h.event.op.Register? else Back(h.before, fd)
  }

  lemma {:induction false} GoneUnlessBack(m: Regs, h: History, fd: int)
    requires Dropped(h, fd) && !Back(h, fd)
    ensures fd !in Current(m, h)
  {
    if !(h.event.Did? && h.event.op == Unregister(fd)) {
      GoneUnlessBack(m, h.before, fd);
    }
  }

  lemma {:induction false} KeptKeepsOwner(m: Regs, h: History, fd: int, r: map<int, Bits>)
    requires r.Keys == m.Keys && GoodHistory(m, r, h) && Kept(m, h, fd)
    ensures fd in Current(m, h)
    ensures Current(m, h)[fd].callback == m[fd].callback && Current(m, h)[fd].data == m[fd].data
  {
    if h.Then? {
      KeptKeepsOwner(m, h.before, fd, r);
    }
  }

  // ---------------------------------------------------------------------------
  // What every point of a scan keeps
  // ---------------------------------------------------------------------------

  /** A row's pending bits are those it began with, less what was masked; new rows have none. */
  ghost predicate Faithful(m: Regs, r: map<int, Bits>, h: History, s: seq<Slot>)
    requires r.Keys == m.Keys
  {
    forall i :: 0 <= i < |s| && Live(s[i]) ==>
      s[i].poll.revents ==
      if Kept(m, h, s[i].poll.fd) then Unmasked(r[s[i].poll.fd], h, s[i].poll.fd) else {}
  }

  /** Rows below c have had their turn, the others have not. */
  ghost predicate Turns(m: Regs, h: History, s: seq<Slot>, c: nat) {
    forall i :: 0 <= i < |s| && Live(s[i]) ==>
      if i < c then Polled(h, s[i].poll.fd) || s[i].poll.revents == {}
      else !Polled(h, s[i].poll.fd) || !Kept(m, h, s[i].poll.fd)
  }

  ghost predicate ScanInv(m: Regs, r: map<int, Bits>, h: History, s: seq<Slot>, c: nat)
    requires r.Keys == m.Keys
  {
    && GoodHistory(m, r, h)
    && Rep(s, Current(m, h))
    && Faithful(m, r, h, s)
    && Turns(m, h, s, c)
  }

  /** Rows keep their place during a scan; only the row of op's descriptor changes. */
  lemma StepRow(s: seq<Slot>, op: Op, m: Regs, i: nat)
    requires Rep(s, m) && Legal(m, op) && i < |Step(s, op, true)|
    ensures var t := Step(s, op, true);
            Live(t[i]) ==>
            if i < |s| then
              && s[i].poll.fd == t[i].poll.fd
              && (op.fd != t[i].poll.fd ==> t[i] == s[i])
              && (op.fd == t[i].poll.fd ==>
                    op.Listen? && t[i] == Relisten(s[i], op.mask, op.events, op.at, true))
            else op.Register? && t[i].poll.fd == op.fd && t[i].poll.revents == {}
  {
    RepAt(s, m, op.fd);
  }

  lemma StepKeepsRows(m: Regs, r: map<int, Bits>, h: History, s: seq<Slot>, c: nat, op: Op, e: Event)
    requires r.Keys == m.Keys && GoodHistory(m, r, h) && Rep(s, Current(m, h)) && Legal(Current(m, h), op)
    requires Faithful(m, r, h, s) && Turns(m, h, s, c) && e.Did? && e.op == op
    ensures Faithful(m, r, Then(h, e), Step(s, op, true))
    ensures Turns(m, Then(h, e), Step(s, op, true), c)
  {
    var t := Step(s, op, true);
    if Kept(m, h, op.fd) {
      KeptKeepsOwner(m, h, op.fd, r);
    }
    forall i | 0 <= i < |t| && Live(t[i])
      ensures t[i].poll.revents ==
              if Kept(m, Then(h, e), t[i].poll.fd) then Unmasked(r[t[i].poll.fd], Then(h, e), t[i].poll.fd) else {}
      ensures if i < c then Polled(Then(h, e), t[i].poll.fd) || t[i].poll.revents == {}
              else !Polled(Then(h, e), t[i].poll.fd) || !Kept(m, Then(h, e), t[i].poll.fd)
    {
      StepRow(s, op, Current(m, h), i);
    }
  }

  /** An operation performed by a callback keeps the scan on course. */
  lemma StepKeepsScan(m: Regs, r: map<int, Bits>, h: History, s: seq<Slot>, c: nat, op: Op)
    requires r.Keys == m.Keys && ScanInv(m, r, h, s, c) && Legal(Current(m, h), op)
    ensures ScanInv(m, r, Then(h, Did(op)), Step(s, op, true), c)
  {
    StepRefines(s, op, true, Current(m, h));
    StepKeepsRows(m, r, h, s, c, op, Did(op));
  }

  /** The callback the poller makes for a row that is due. */
  function CallFor(x: Slot): Event {
    if x.poll.revents != {} then Called(x.poll.fd, x.poll.revents, x.callback, x.data, true)
    else Called(x.poll.fd, {POLLERR}, x.callback, x.data, false)
  }

  lemma CallKeepsRows(m: Regs, r: map<int, Bits>, h: History, s: seq<Slot>, c: nat)
    requires r.Keys == m.Keys && Rep(s, Current(m, h)) && c < |s|
    requires Faithful(m, r, h, s) && Turns(m, h, s, c)
    ensures GoodEvent(m, r, h, CallFor(s[c]))
    ensures Faithful(m, r, Then(h, CallFor(s[c])), s)
    ensures Turns(m, Then(h, CallFor(s[c])), s, c + 1)
  {
    var h' := Then(h, CallFor(s[c]));
    forall i | 0 <= i < |s| && Live(s[i])
      ensures Kept(m, h', s[i].poll.fd) == Kept(m, h, s[i].poll.fd)
      ensures i == c || s[i].poll.fd != s[c].poll.fd
    {
    }
  }

  // ---------------------------------------------------------------------------
  // Termination of the scan
  // ---------------------------------------------------------------------------

  /** Rows that will make the poller call back: pending events, or idle for too long. */
  predicate IsDue(x: Slot, now: int, timeout: int) {
    x.poll.revents != {} || (timeout > 0 && x.time + timeout - now <= 0)
  }

  ghost function Due(now: int, timeout: int): Slot -> nat {
    x => if IsDue(x, now, timeout) then 1 else 0
  }

  /** No operation makes a row due, as long as the clock does not run backwards. */
  lemma StepKeepsDue(s: seq<Slot>, op: Op, c: nat, now: int, timeout: int)
    requires op.Unregister? || op.at >= now
    ensures Sum(Step(s, op, true), c, Due(now, timeout)) <= Sum(s, c, Due(now, timeout))
  {
    var t := Step(s, op, true);
    var e := IndexOf(s, op.fd, 0);
    if op.Register? {
      SumAppend(s, c, Due(now, timeout), t[|s|]);
    } else if 0 <= e && (op.Listen? || e < |s| - 1) {
      SumUpdate(s, c, Due(now, timeout), e, t[e]);
    }
  }

  // ---------------------------------------------------------------------------
  // Beginning, middle and end of a scan
  // ---------------------------------------------------------------------------

  /** The events poll() reported, by descriptor. */
  ghost function PendingBits(s: seq<Slot>, m: Regs): (r: map<int, Bits>)
    requires Rep(s, m)
    ensures r.Keys == m.Keys
    ensures forall i :: 0 <= i < |s| && Live(s[i]) ==> r[s[i].poll.fd] == s[i].poll.revents
  {
    map fd | fd in m :: (RepAt(s, m, fd); s[IndexOf(s, fd, 0)].poll.revents)
  }

  lemma ScanBegins(s: seq<Slot>, m: Regs)
    requires Rep(s, m) && Tombs(s) == 0
    ensures ScanInv(m, PendingBits(s, m), Begin, s, 0)
  {
    NoTombs(s);
  }

  /** Giving row c its turn keeps the scan on course. */
  lemma CallKeepsScan(m: Regs, r: map<int, Bits>, h: History, s: seq<Slot>, c: nat)
    requires r.Keys == m.Keys && ScanInv(m, r, h, s, c) && c < |s|
    ensures ScanInv(m, r, Then(h, CallFor(s[c])), s, c + 1)
    ensures s[c].poll.revents == {} ==> ScanInv(m, r, h, s, c + 1)
  {
    CallKeepsRows(m, r, h, s, c);
  }

  /** The time stamp written after a callback, if its row still exists. */
  ghost function Stamped(s: seq<Slot>, i: nat, at: int): seq<Slot> {
    if i < |s| then s[i := s[i].(time := at)] else s
  }

  lemma StampKeepsRep(s: seq<Slot>, i: nat, at: int, m: Regs)
    requires Rep(s, m)
    ensures Rep(Stamped(s, i, at), m) && Tombs(Stamped(s, i, at)) == Tombs(s)
  {
    if i < |s| {
      SumUpdate(s, 0, Tomb, i, s[i].(time := at));
      UpdatedRows(s, i, s[i].(time := at));
    }
  }

  lemma StampKeepsScan(m: Regs, r: map<int, Bits>, h: History, s: seq<Slot>, i: nat, at: int)
    requires r.Keys == m.Keys && ScanInv(m, r, h, s, i + 1)
    ensures ScanInv(m, r, h, Stamped(s, i, at), i + 1)
  {
    StampKeepsRep(s, i, at, Current(m, h));
  }

  // ---------------------------------------------------------------------------
  // The trace of a scan
  // ---------------------------------------------------------------------------

  /** What is not the poller's: the k-th callback of the scan performs react(k), the clock reads clock(k) after it
      and now before the scan, and rows idle for the timeout are called back. */
  datatype Script = Script(react: nat -> seq<Op>, clock: nat -> int, now: int, timeout: int)

  /** Rows, calls made and history at some point of a scan. */
  datatype Point = Point(slots: seq<Slot>, calls: nat, past: History)

  ghost predicate AllTimely(sc: Script) { forall k: nat :: Timely(sc.react(k), sc.now) }

  ghost function PerformAll(s: seq<Slot>, ops: seq<Op>): seq<Slot>
    decreases |ops|
  {
    if ops == [] then s else PerformAll(Step(s, ops[0], true), ops[1..])
  }

  ghost function Recorded(h: History, ops: seq<Op>): History
    decreases |ops|
  {
    if ops == [] then h else Recorded(Then(h, Did(ops[0])), ops[1..])
  }

  /** Row i has its turn: if it is due its callback is made, performs its operations, and a row called for poll
      events is stamped. */
  ghost function Turn(p: Point, i: nat, sc: Script): Point
    requires i < |p.slots|
  {
    if !IsDue(p.slots[i], sc.now, sc.timeout) then p
    else
      var ops := sc.react(p.calls);
      var t := PerformAll(p.slots, ops);
      Point(if p.slots[i].poll.revents != {} then Stamped(t, i, sc.clock(p.calls)) else t,
            p.calls + 1,
            Recorded(Then(p.past, CallFor(p.slots[i])), ops))
  }

  lemma {:induction false} PerformKeepsDue(s: seq<Slot>, ops: seq<Op>, c: nat, now: int, timeout: int)
    requires Timely(ops, now)
    ensures Sum(PerformAll(s, ops), c, Due(now, timeout)) <= Sum(s, c, Due(now, timeout))
    decreases |ops|
  {
    if ops != [] {
      StepKeepsDue(s, ops[0], c, now, timeout);
      PerformKeepsDue(Step(s, ops[0], true), ops[1..], c, now, timeout);
    }
  }

  /** A turn uses up a due row, or leaves all rows as they are. */
  lemma TurnShrinks(p: Point, i: nat, sc: Script)
    requires i < |p.slots| && AllTimely(sc)
    ensures var before, after := Sum(p.slots, i, Due(sc.now, sc.timeout)), Sum(Turn(p, i, sc).slots, i + 1, Due(sc.now, sc.timeout));
            if IsDue(p.slots[i], sc.now, sc.timeout) then after < before else after == before && Turn(p, i, sc) == p
  {
    var w := Due(sc.now, sc.timeout);
    SumAdvance(p.slots, i, w);
    if IsDue(p.slots[i], sc.now, sc.timeout) {
      var ops := sc.react(p.calls);
      assert Timely(ops, sc.now);
      PerformKeepsDue(p.slots, ops, i + 1, sc.now, sc.timeout);
      StampKeepsSum(PerformAll(p.slots, ops), i, sc.clock(p.calls), w);
    }
  }

  lemma StampKeepsSum(s: seq<Slot>, i: nat, at: int, w: Slot -> nat)
    ensures Sum(Stamped(s, i, at), i + 1, w) == Sum(s, i + 1, w)
  {
    if i < |s| {
      SumUpdate(s, i + 1, w, i, s[i].(time := at));
    }
  }

  /** The rest of the scan from row i on. It ends whatever the callbacks register. */
  ghost function Trace(p: Point, i: nat, sc: Script): Point
    requires AllTimely(sc)
    decreases Sum(p.slots, i, Due(sc.now, sc.timeout)), |p.slots| - i
  {
    if i >= |p.slots| then p
    else
      TurnShrinks(p, i, sc);
      Trace(Turn(p, i, sc), i + 1, sc)
  }

  /** A whole scan. */
  ghost function ScanTrace(s: seq<Slot>, sc: Script): Point
    requires AllTimely(sc)
  {
    Trace(Point(s, 0, Begin), 0, sc)
  }

  /** A scan may begin: the rows are the map, without tombstones, and callbacks will only do what is legal. */
  ghost predicate Ready(s: seq<Slot>, m: Regs, sc: Script) {
    Rep(s, m) && Tombs(s) == 0 && Scripted(m, sc.react, sc.now)
  }

  lemma ReadyIsTimely(s: seq<Slot>, m: Regs, sc: Script)
    requires Ready(s, m, sc)
    ensures AllTimely(sc)
  {
    forall k: nat
      ensures Timely(sc.react(k), sc.now)
    {
      ScriptedAt(m, sc.react, sc.now, k);
    }
  }

  /** The calls of a history, in order. */
  ghost function CallsOf(h: History): seq<Event> {
    match h
    case Begin => []
    case Then(b, e) => CallsOf(b) + (if e.Called? then [e] else [])
  }

  lemma {:induction false} RecordedCalls(h: History, ops: seq<Op>)
    ensures CallsOf(Recorded(h, ops)) == CallsOf(h)
    decreases |ops|
  {
    if ops != [] {
      RecordedCalls(Then(h, Did(ops[0])), ops[1..]);
    }
  }

  // ---------------------------------------------------------------------------
  // What a scan achieves
  // ---------------------------------------------------------------------------

  lemma {:induction false} PerformKeepsScan(m: Regs, r: map<int, Bits>, h: History, s: seq<Slot>, c: nat, ops: seq<Op>)
    requires r.Keys == m.Keys && ScanInv(m, r, h, s, c) && LegalAll(Current(m, h), ops)
    ensures ScanInv(m, r, Recorded(h, ops), PerformAll(s, ops), c)
    ensures Current(m, Recorded(h, ops)) == ApplyAll(Current(m, h), ops)
    ensures CallsOf(Recorded(h, ops)) == CallsOf(h)
    decreases |ops|
  {
    hide ScanInv, Step;
    if ops != [] {
      StepKeepsScan(m, r, h, s, c, ops[0]);
      PerformKeepsScan(m, r, Then(h, Did(ops[0])), Step(s, ops[0], true), c, ops[1..]);
    }
  }

  /** The invariant of a scan at row i, and how far the script has got. */
  ghost predicate OnCourse(m: Regs, r: map<int, Bits>, p: Point, i: nat, sc: Script)
    requires r.Keys == m.Keys
  {
    && ScanInv(m, r, p.past, p.slots, i)
    && Current(m, p.past) == MapAfter(m, sc.react, p.calls)
    && |CallsOf(p.past)| == p.calls
  }

  lemma TurnKeepsCourse(m: Regs, r: map<int, Bits>, p: Point, i: nat, sc: Script)
    requires r.Keys == m.Keys && Scripted(m, sc.react, sc.now) && OnCourse(m, r, p, i, sc) && i < |p.slots|
    ensures OnCourse(m, r, Turn(p, i, sc), i + 1, sc)
  {
    hide ScanInv, Scripted, MapAfter, LegalAll, ApplyAll, PerformAll, Recorded;
    CallKeepsScan(m, r, p.past, p.slots, i);
    if IsDue(p.slots[i], sc.now, sc.timeout) {
      var ops, h := sc.react(p.calls), Then(p.past, CallFor(p.slots[i]));
      ScriptedAt(m, sc.react, sc.now, p.calls);
      PerformKeepsScan(m, r, h, p.slots, i + 1, ops);
      StampKeepsScan(m, r, Recorded(h, ops), PerformAll(p.slots, ops), i, sc.clock(p.calls));
    }
  }

  lemma {:induction false} TraceKeepsCourse(m: Regs, r: map<int, Bits>, p: Point, i: nat, sc: Script)
    requires r.Keys == m.Keys && Scripted(m, sc.react, sc.now) && AllTimely(sc) && OnCourse(m, r, p, i, sc)
    ensures var q := Trace(p, i, sc); exists c: nat :: OnCourse(m, r, q, c, sc) && |q.slots| <= c
    decreases Sum(p.slots, i, Due(sc.now, sc.timeout)), |p.slots| - i
  {
    hide OnCourse, Scripted, Turn, Sum;
    if i < |p.slots| {
      TurnShrinks(p, i, sc);
      TurnKeepsCourse(m, r, p, i, sc);
      var next := Turn(p, i, sc);
      TraceKeepsCourse(m, r, next, i + 1, sc);
      var q := Trace(next, i + 1, sc);
      assert Trace(p, i, sc) == q;
      var c: nat :| OnCourse(m, r, q, c, sc) && |q.slots| <= c;
    } else {
      assert OnCourse(m, r, Trace(p, i, sc), i, sc);
    }
  }

  /** What one scan achieves, when it began with map m and pending bits r:
      - the calls and operations made, in order, form a good history;
      - a descriptor registered throughout that was not called had no unmasked event pending. */
  ghost predicate Served(m: Regs, r: map<int, Bits>, h: History) {
    && r.Keys == m.Keys
    && GoodHistory(m, r, h)
    && (forall fd :: Kept(m, h, fd) && !Polled(h, fd) ==> Unmasked(r[fd], h, fd) == {})
  }

  lemma ScanEnds(m: Regs, r: map<int, Bits>, h: History, s: seq<Slot>, c: nat)
    requires r.Keys == m.Keys && ScanInv(m, r, h, s, c) && |s| <= c
    ensures Served(m, r, h)
  {
    forall fd | Kept(m, h, fd) && !Polled(h, fd)
      ensures Unmasked(r[fd], h, fd) == {}
    {
      KeptKeepsOwner(m, h, fd, r);
      assert HasRow(s, fd);
    }
  }

  /** Every scan serves every descriptor, and ends with the rows and the map that its callbacks built. */
  lemma ScanServes(s: seq<Slot>, m: Regs, sc: Script)
    requires Ready(s, m, sc)
    ensures AllTimely(sc)
    ensures var q := ScanTrace(s, sc);
            && Served(m, PendingBits(s, m), q.past)
            && Rep(q.slots, MapAfter(m, sc.react, q.calls))
            && Current(m, q.past) == MapAfter(m, sc.react, q.calls)
            && |CallsOf(q.past)| == q.calls
  {
    hide Scripted, PendingBits, Served, Rep;
    ReadyIsTimely(s, m, sc);
    var r := PendingBits(s, m);
    ScanBegins(s, m);
    MapAtStart(m, sc.react);
    TraceKeepsCourse(m, r, Point(s, 0, Begin), 0, sc);
    var q := ScanTrace(s, sc);
    var c: nat :| OnCourse(m, r, q, c, sc) && |q.slots| <= c;
    ScanEnds(m, r, q.past, q.slots, c);
  }

  /** A poll callback of a scan gets exactly the events reported for its descriptor that no earlier callback of the
      scan turned off. */
  lemma DeliveredIff(s: seq<Slot>, m: Regs, sc: Script, h: History, e: Event, b: Flag)
    requires Ready(s, m, sc) && AllTimely(sc) && Occurs(h, e, ScanTrace(s, sc).past)
    requires e.Called? && e.polled && e.fd >= 0
    ensures e.fd in m && (b in e.revents <==> b in PendingBits(s, m)[e.fd] && !TurnedOff(h, e.fd, b))
  {
    ScanServes(s, m, sc);
    EveryEventGood(m, PendingBits(s, m), h, e, ScanTrace(s, sc).past);
    UnmaskedIff(PendingBits(s, m)[e.fd], h, e.fd, b);
  }

  /** A descriptor unregistered earlier in the scan and not registered again is never passed to a
      callback; and even if it is registered again, no poll events are delivered to it. */
  lemma UnregisteredIsSilent(s: seq<Slot>, m: Regs, sc: Script, h: History, e: Event, fd: int)
    requires Ready(s, m, sc) && AllTimely(sc) && Occurs(h, e, ScanTrace(s, sc).past)
    requires e.Called? && fd >= 0 && Dropped(h, fd)
    ensures !Back(h, fd) ==> e.fd != fd
    ensures e.polled ==> e.fd != fd
  {
    ScanServes(s, m, sc);
    EveryEventGood(m, PendingBits(s, m), h, e, ScanTrace(s, sc).past);
    if !Back(h, fd) {
      GoneUnlessBack(m, h, fd);
    }
  }

  /** How often fd was called for poll events. */
  ghost function PolledTimes(h: History, fd: int): nat {
    match h
    case Begin => 0
    case Then(b, e) => PolledTimes(b, fd) + (if e.Called? && e.polled && e.fd == fd then 1 else 0)
  }

  lemma {:induction false} AtMostOnce(m: Regs, r: map<int, Bits>, h: History, fd: int)
    requires r.Keys == m.Keys && GoodHistory(m, r, h) && fd >= 0
    ensures PolledTimes(h, fd) == if Polled(h, fd) then 1 else 0
  {
    if h.Then? {
      AtMostOnce(m, r, h.before, fd);
    }
  }

  /** No descriptor is called twice for poll events; and one registered throughout, with an event reported that no
      callback turned off, is called exactly once. */
  lemma CalledOnce(s: seq<Slot>, m: Regs, sc: Script, fd: int)
    requires Ready(s, m, sc) && AllTimely(sc) && fd >= 0
    ensures var h := ScanTrace(s, sc).past;
            && PolledTimes(h, fd) <= 1
            && (fd in m && !Dropped(h, fd) && (exists b :: b in PendingBits(s, m)[fd] && !TurnedOff(h, fd, b)) ==>
                PolledTimes(h, fd) == 1)
  {
    ScanServes(s, m, sc);
    var h := ScanTrace(s, sc).past;
    AtMostOnce(m, PendingBits(s, m), h, fd);
    if fd in m && !Dropped(h, fd) && exists b :: b in PendingBits(s, m)[fd] && !TurnedOff(h, fd, b) {
      var b :| b in PendingBits(s, m)[fd] && !TurnedOff(h, fd, b);
      UnmaskedIff(PendingBits(s, m)[fd], h, fd, b);
      assert Unmasked(PendingBits(s, m)[fd], h, fd) != {};
    }
  }

  /** A poll callback gets the callback and data its descriptor had when the scan began. */
  lemma CalledAsRegistered(s: seq<Slot>, m: Regs, sc: Script, h: History, e: Event)
    requires Ready(s, m, sc) && AllTimely(sc) && Occurs(h, e, ScanTrace(s, sc).past)
    requires e.Called? && e.polled && e.fd >= 0
    ensures e.fd in m && e.callback == m[e.fd].callback && e.data == m[e.fd].data
  {
    ScanServes(s, m, sc);
    EveryEventGood(m, PendingBits(s, m), h, e, ScanTrace(s, sc).past);
    KeptKeepsOwner(m, h, e.fd, PendingBits(s, m));
  }

  // ---------------------------------------------------------------------------
  // Calls with descriptor -1
  // ---------------------------------------------------------------------------

  /** Tombstones that will fire, and fire as one of the chosen events. */
  ghost function Fallen(now: int, timeout: int, chosen: Event -> bool): Slot -> nat {
    x => if !Live(x) && IsDue(x, now, timeout) && chosen(CallFor(x)) then 1 else 0
  }

  /** What an unregister abandons. A caller can see it coming: the row is ahead of the scan, is not the last, and is
      due, by pending events or by its age. */
  ghost function Abandons(s: seq<Slot>, op: Op, c: nat, sc: Script): Option<Event> {
    if !op.Unregister? then None else
    var e := IndexOf(s, op.fd, 0);
    if 0 <= e && c <= e < |s| - 1 && IsDue(s[e], sc.now, sc.timeout) then Some(CallFor(Buried(s[e]))) else None
  }

  ghost function Chosen(e: Option<Event>, chosen: Event -> bool): nat { One(e.Some? && chosen(e.value)) }

  ghost function AbandonedBy(s: seq<Slot>, ops: seq<Op>, c: nat, sc: Script, chosen: Event -> bool): nat
    decreases |ops|
  {
    if ops == [] then 0
    else Chosen(Abandons(s, ops[0], c, sc), chosen) + AbandonedBy(Step(s, ops[0], true), ops[1..], c, sc, chosen)
  }

  /** Rows abandoned in the rest of a scan, from row i on. */
  ghost function AbandonedIn(p: Point, i: nat, sc: Script, chosen: Event -> bool): nat
    requires AllTimely(sc)
    decreases Sum(p.slots, i, Due(sc.now, sc.timeout)), |p.slots| - i
  {
    if i >= |p.slots| then 0
    else
      TurnShrinks(p, i, sc);
      (if IsDue(p.slots[i], sc.now, sc.timeout) then AbandonedBy(p.slots, sc.react(p.calls), i + 1, sc, chosen) else 0)
      + AbandonedIn(Turn(p, i, sc), i + 1, sc, chosen)
  }

  /** Calls made with descriptor -1. */
  ghost function Misfires(h: History, chosen: Event -> bool): nat {
    match h
    case Begin => 0
    case Then(b, e) => Misfires(b, chosen) + (if e.Called? && e.fd < 0 && chosen(e) then 1 else 0)
  }

  lemma FallenIs(x: Slot, now: int, timeout: int, chosen: Event -> bool)
    ensures Fallen(now, timeout, chosen)(x) == if !Live(x) && IsDue(x, now, timeout) && chosen(CallFor(x)) then 1 else 0
  {
  }

  lemma StepBuries(s: seq<Slot>, op: Op, c: nat, sc: Script, chosen: Event -> bool)
    requires op.fd >= 0
    ensures Sum(Step(s, op, true), c, Fallen(sc.now, sc.timeout, chosen)) ==
            Sum(s, c, Fallen(sc.now, sc.timeout, chosen)) + Chosen(Abandons(s, op, c, sc), chosen)
  {
    hide Fallen;
    var t := Step(s, op, true);
    var e := IndexOf(s, op.fd, 0);
    var w := Fallen(sc.now, sc.timeout, chosen);
    if op.Register? {
      SumAppend(s, c, w, t[|s|]);
      FallenIs(t[|s|], sc.now, sc.timeout, chosen);
    } else if 0 <= e {
      FallenIs(s[e], sc.now, sc.timeout, chosen);
      if op.Listen? || e < |s| - 1 {
        FallenIs(t[e], sc.now, sc.timeout, chosen);
        SumUpdate(s, c, w, e, t[e]);
      } else {
        assert s == s[..e] + [s[e]];
        SumAppend(s[..e], c, w, s[e]);
      }
    }
  }

  lemma {:induction false} PerformBuries(s: seq<Slot>, ops: seq<Op>, c: nat, sc: Script, chosen: Event -> bool, h: History)
    requires forall k :: 0 <= k < |ops| ==> ops[k].fd >= 0
    ensures Sum(PerformAll(s, ops), c, Fallen(sc.now, sc.timeout, chosen)) ==
            Sum(s, c, Fallen(sc.now, sc.timeout, chosen)) + AbandonedBy(s, ops, c, sc, chosen)
    ensures Misfires(Recorded(h, ops), chosen) == Misfires(h, chosen)
    decreases |ops|
  {
    hide Step, Sum, Fallen, Abandons;
    if ops != [] {
      StepBuries(s, ops[0], c, sc, chosen);
      PerformBuries(Step(s, ops[0], true), ops[1..], c, sc, chosen, Then(h, Did(ops[0])));
    }
  }

  ghost predicate RealDescriptors(sc: Script) {
    forall k: nat :: forall j :: 0 <= j < |sc.react(k)| ==> sc.react(k)[j].fd >= 0
  }

  /** One turn: a tombstone that is due fires, and what the callback abandons joins those that will. */
  lemma TurnBalances(p: Point, i: nat, sc: Script, chosen: Event -> bool)
    requires i < |p.slots| && RealDescriptors(sc)
    ensures var w := Fallen(sc.now, sc.timeout, chosen);
            var q := Turn(p, i, sc);
            Misfires(q.past, chosen) + Sum(q.slots, i + 1, w) ==
            Misfires(p.past, chosen) + Sum(p.slots, i, w)
            + (if IsDue(p.slots[i], sc.now, sc.timeout) then AbandonedBy(p.slots, sc.react(p.calls), i + 1, sc, chosen) else 0)
  {
    hide Sum, PerformAll, Recorded, AbandonedBy, Stamped;
    var w := Fallen(sc.now, sc.timeout, chosen);
    SumAdvance(p.slots, i, w);
    if IsDue(p.slots[i], sc.now, sc.timeout) {
      var ops := sc.react(p.calls);
      assert Misfires(Then(p.past, CallFor(p.slots[i])), chosen) == Misfires(p.past, chosen) + w(p.slots[i]);
      assert forall k :: 0 <= k < |ops| ==> ops[k].fd >= 0;
      PerformBuries(p.slots, ops, i + 1, sc, chosen, Then(p.past, CallFor(p.slots[i])));
      StampKeepsSum(PerformAll(p.slots, ops), i, sc.clock(p.calls), w);
    }
  }

  lemma {:induction false} TraceBalances(p: Point, i: nat, sc: Script, chosen: Event -> bool)
    requires AllTimely(sc) && RealDescriptors(sc)
    ensures Misfires(Trace(p, i, sc).past, chosen) ==
            Misfires(p.past, chosen) + Sum(p.slots, i, Fallen(sc.now, sc.timeout, chosen)) + AbandonedIn(p, i, sc, chosen)
    decreases Sum(p.slots, i, Due(sc.now, sc.timeout)), |p.slots| - i
  {
    hide Turn, Fallen, RealDescriptors;
    if i < |p.slots| {
      TurnShrinks(p, i, sc);
      TurnBalances(p, i, sc, chosen);
      TraceBalances(Turn(p, i, sc), i + 1, sc, chosen);
    }
  }

  lemma {:induction false} LegalAreReal(m: Regs, ops: seq<Op>)
    requires LegalAll(m, ops)
    ensures forall k :: 0 <= k < |ops| ==> ops[k].fd >= 0
    decreases |ops|
  {
    if ops != [] {
      LegalAreReal(ApplyOp(m, ops[0]), ops[1..]);
    }
  }

  lemma {:induction false} NoTombsFallen(s: seq<Slot>, now: int, timeout: int, chosen: Event -> bool)
    requires forall i :: 0 <= i < |s| ==> Live(s[i])
    ensures Sum(s, 0, Fallen(now, timeout, chosen)) == 0
    decreases |s|
  {
    if s != [] {
      NoTombsFallen(s[..|s| - 1], now, timeout, chosen);
    }
  }

  /** The rows abandoned in a scan are exactly those that fire with descriptor -1: each once, with its own bits,
      callback and data. */
  lemma AbandonedFire(s: seq<Slot>, m: Regs, sc: Script, chosen: Event -> bool)
    requires Ready(s, m, sc)
    ensures AllTimely(sc)
    ensures Misfires(ScanTrace(s, sc).past, chosen) == AbandonedIn(Point(s, 0, Begin), 0, sc, chosen)
  {
    hide Scripted, MapAfter, Fallen;
    ReadyIsTimely(s, m, sc);
    forall k: nat
      ensures forall j :: 0 <= j < |sc.react(k)| ==> sc.react(k)[j].fd >= 0
    {
      ScriptedAt(m, sc.react, sc.now, k);
      LegalAreReal(MapAfter(m, sc.react, k), sc.react(k));
    }
    NoTombs(s);
    NoTombsFallen(s, sc.now, sc.timeout, chosen);
    TraceBalances(Point(s, 0, Begin), 0, sc, chosen);
  }

  ghost predicate NoMisfire(h: History) {
    h.Then? ==> NoMisfire(h.before) && !(h.event.Called? && h.event.fd < 0)
  }

  /** None of the operations unregisters a due row at c or beyond that is not the last. */
  ghost predicate Harmless(s: seq<Slot>, ops: seq<Op>, c: nat, sc: Script)
    decreases |ops|
  {
    ops == [] || (Abandons(s, ops[0], c, sc).None? && Harmless(Step(s, ops[0], true), ops[1..], c, sc))
  }

  /** No callback in the rest of the scan does. */
  ghost predicate AllHarmless(p: Point, i: nat, sc: Script)
    requires AllTimely(sc)
    decreases Sum(p.slots, i, Due(sc.now, sc.timeout)), |p.slots| - i
  {
    if i >= |p.slots| then true
    else
      TurnShrinks(p, i, sc);
      (IsDue(p.slots[i], sc.now, sc.timeout) ==> Harmless(p.slots, sc.react(p.calls), i + 1, sc))
      && AllHarmless(Turn(p, i, sc), i + 1, sc)
  }

  lemma {:induction false} MisfiresCount(h: History)
    ensures NoMisfire(h) <==> Misfires(h, _ => true) == 0
  {
    if h.Then? {
      MisfiresCount(h.before);
    }
  }

  lemma {:induction false} HarmlessCount(s: seq<Slot>, ops: seq<Op>, c: nat, sc: Script)
    ensures Harmless(s, ops, c, sc) <==> AbandonedBy(s, ops, c, sc, _ => true) == 0
    decreases |ops|
  {
    hide Step, Abandons;
    if ops != [] {
      HarmlessCount(Step(s, ops[0], true), ops[1..], c, sc);
    }
  }

  lemma {:induction false} AllHarmlessCount(p: Point, i: nat, sc: Script)
    requires AllTimely(sc)
    ensures AllHarmless(p, i, sc) <==> AbandonedIn(p, i, sc, _ => true) == 0
    decreases Sum(p.slots, i, Due(sc.now, sc.timeout)), |p.slots| - i
  {
    hide Turn;
    if i < |p.slots| {
      TurnShrinks(p, i, sc);
      HarmlessCount(p.slots, sc.react(p.calls), i + 1, sc);
      AllHarmlessCount(Turn(p, i, sc), i + 1, sc);
    }
  }

  /** fdset.h promises that no callback comes after fdset_unregister returns. In a scan no call with descriptor -1
      is made, for poll events or for idleness, if and only if no callback unregisters a due row ahead of the scan
      that is not the last. */
  lemma PromiseKeptIff(s: seq<Slot>, m: Regs, sc: Script)
    requires Ready(s, m, sc)
    ensures AllTimely(sc)
    ensures NoMisfire(ScanTrace(s, sc).past) <==> AllHarmless(Point(s, 0, Begin), 0, sc)
  {
    hide Ready;
    AbandonedFire(s, m, sc, _ => true);
    MisfiresCount(ScanTrace(s, sc).past);
    AllHarmlessCount(Point(s, 0, Begin), 0, sc);
  }

  /** And it does fail, in every scan of three rows in which the callback of the first unregisters the second while
      that is due: by pending events, or by age alone. */
  lemma PromiseBroken(s: seq<Slot>, m: Regs, sc: Script)
    requires Ready(s, m, sc) && |s| == 3 && sc.react(0) == [Unregister(s[1].poll.fd)]
    requires IsDue(s[0], sc.now, sc.timeout) && IsDue(s[1], sc.now, sc.timeout)
    ensures AllTimely(sc) && !NoMisfire(ScanTrace(s, sc).past)
  {
    PromiseKeptIff(s, m, sc);
    NoTombs(s);
    RepAt(s, m, s[1].poll.fd);
    var start := Point(s, 0, Begin);
    assert Abandons(s, sc.react(0)[0], 1, sc).Some?;
    assert !Harmless(s, sc.react(0), 1, sc);
    TurnShrinks(start, 0, sc);
  }

  ghost function ExampleRows(pending: bool): seq<Slot> {
    [Slot(PollFd(10, {POLLIN}, {POLLIN}), 1, 100, 0),
     Slot(PollFd(11, {POLLIN}, if pending then {POLLIN} else {}), 2, 101, 0),
     Slot(PollFd(12, {POLLIN}, {}), 3, 102, 60)]
  }

  ghost function ExampleScript(): Script {
    Script(k => if k == 0 then [Unregister(11)] else [], _ => 60, 60, 30)
  }

  lemma ExampleRep(pending: bool)
    ensures var m := map[10 := Reg({POLLIN}, 1, 100), 11 := Reg({POLLIN}, 2, 101), 12 := Reg({POLLIN}, 3, 102)];
            Rep(ExampleRows(pending), m) && Tombs(ExampleRows(pending)) == 0
  {
    var s := ExampleRows(pending);
    NoTombs(s);
    assert HasRow(s, 10) && HasRow(s, 11) && HasRow(s, 12) by {
      assert s[0].poll.fd == 10 && s[1].poll.fd == 11 && s[2].poll.fd == 12;
    }
  }

  lemma ExampleScripted(m: Regs)
    ensures Scripted(m, ExampleScript().react, ExampleScript().now)
  {
    hide MapAfter;
    var react := ExampleScript().react;
    forall k: nat
      ensures LegalAll(MapAfter(m, react, k), react(k)) && Timely(react(k), 60)
    {
      assert react(k) == if k == 0 then [Unregister(11)] else [];
      assert |react(k)| > 0 ==> react(k)[1..] == [];
    }
  }

  /** Such scans exist: descriptors 10, 11 and 12, of which 11 has pending events, or none and has been idle for a
      minute with a timeout of half that. */
  lemma PromiseBrokenExample(pending: bool)
    ensures AllTimely(ExampleScript()) && !NoMisfire(ScanTrace(ExampleRows(pending), ExampleScript()).past)
  {
    hide Rep, Tombs, Scripted, AllTimely, ScanTrace;
    var m := map[10 := Reg({POLLIN}, 1, 100), 11 := Reg({POLLIN}, 2, 101), 12 := Reg({POLLIN}, 3, 102)];
    ExampleRep(pending);
    ExampleScripted(m);
    PromiseBroken(ExampleRows(pending), m, ExampleScript());
  }

  // ---------------------------------------------------------------------------
  // The set itself
  // ---------------------------------------------------------------------------

  function Zip(p: seq<PollFd>, c: seq<int>, d: seq<int>, t: seq<int>, n: nat): (s: seq<Slot>)
    requires n <= |p| && n <= |c| && n <= |d| && n <= |t|
    ensures |s| == n
  {
    seq(n, i requires 0 <= i < n => Slot(p[i], c[i], d[i], t[i]))
  }

  ghost function Reported(s: seq<Slot>, reported: seq<Bits>): seq<Slot>
    requires |s| == |reported|
  {
    seq(|s|, i requires 0 <= i < |s| => s[i].(poll := s[i].poll.(revents := reported[i])))
  }

  lemma ReportedRep(s: seq<Slot>, reported: seq<Bits>, m: Regs)
    requires |s| == |reported| && Rep(s, m) && Tombs(s) == 0
    ensures Rep(Reported(s, reported), m) && Tombs(Reported(s, reported)) == 0
  {
    var t := Reported(s, reported);
    NoTombs(s);
    NoTombs(t);
    forall fd | HasRow(s, fd)
      ensures HasRow(t, fd)
    {
      var i :| 0 <= i < |s| && s[i].poll.fd == fd;
      assert t[i].poll.fd == fd;
    }
  }

  /** What poll() reported for each descriptor. */
  ghost function BitsReported(s: seq<Slot>, reported: seq<Bits>, m: Regs): map<int, Bits>
    requires Rep(s, m) && |s| == |reported|
  {
    map fd | fd in m :: (RepAt(s, m, fd); reported[IndexOf(s, fd, 0)])
  }

  lemma ReportedBits(s: seq<Slot>, reported: seq<Bits>, m: Regs)
    requires |s| == |reported| && Rep(s, m) && Tombs(s) == 0
    ensures Rep(Reported(s, reported), m)
    ensures PendingBits(Reported(s, reported), m) == BitsReported(s, reported, m)
  {
    hide Rep, IndexOf, Tombs;
    ReportedRep(s, reported, m);
    var t := Reported(s, reported);
    forall fd | fd in m
      ensures PendingBits(t, m)[fd] == BitsReported(s, reported, m)[fd]
    {
      ReportedIndex(s, reported, fd, 0);
      RepAt(s, m, fd);
    }
  }

  lemma {:induction false} ReportedIndex(s: seq<Slot>, reported: seq<Bits>, fd: int, start: nat)
    requires |s| == |reported| && start <= |s|
    ensures IndexOf(Reported(s, reported), fd, start) == IndexOf(s, fd, start)
    decreases |s| - start
  {
    if start < |s| {
      ReportedIndex(s, reported, fd, start + 1);
    }
  }

  class FDSet {
    var pollinfo: seq<PollFd>
    var callbacks: seq<int>
    var datafields: seq<int>
    var times: seq<int>
    var size: nat
    var entries: nat
    var timeout: int
    var scanning: bool
    var deletedEntries: nat
    ghost var regs: Regs

    ghost predicate Parallel()
      reads this
    {
      entries <= size == |pollinfo| == |callbacks| == |datafields| == |times|
    }

    /** The rows in use. */
    ghost function Slots(): seq<Slot>
      requires Parallel()
      reads this
    {
      Zip(pollinfo, callbacks, datafields, times, entries)
    }

    ghost predicate Valid()
      reads this
    {
      && Parallel()
      && Rep(Slots(), regs)
      && deletedEntries == Tombs(Slots())
    }

    /** Between polls: no scan under way, no tombstones. */
    ghost predicate Settled()
      reads this
    {
      Valid() && !scanning && deletedEntries == 0
    }

    constructor (limit: int)
      ensures Settled() && regs == map[] && entries == 0
      ensures timeout == if limit > 0 then limit else -1
    {
      size, entries := 1, 0;
      pollinfo, callbacks, datafields, times := [PollFd(0, {}, {})], [0], [0], [0];
      timeout := if limit > 0 then limit else -1;
      scanning, deletedEntries := false, 0;
      regs := map[];
    }

    method FindEntry(fd: int) returns (r: int)
      requires Valid()
      ensures r == IndexOf(Slots(), fd, 0)
      ensures fd >= 0 ==> (r >= 0 <==> fd in regs)
    {
      if fd >= 0 {
        RepAt(Slots(), regs, fd);
      }
      for i := 0 to entries
        invariant IndexOf(Slots(), fd, i) == IndexOf(Slots(), fd, 0)
      {
        if pollinfo[i].fd == fd {
          return i;
        }
      }
      r := -1;
    }

    method RemoveEntry(entry: nat)
      requires Parallel() && entry < entries
      modifies this
      ensures Parallel() && Slots() == Removed(old(Slots()), entry)
      ensures unchanged(`timeout, `scanning, `deletedEntries, `regs, `size)
    {
      if entry != entries - 1 {
        pollinfo := pollinfo[entry := pollinfo[entries - 1]];
        callbacks := callbacks[entry := callbacks[entries - 1]];
        datafields := datafields[entry := datafields[entries - 1]];
        times := times[entry := times[entries - 1]];
      }
      entries := entries - 1;
    }

    /** Ends with no tombstone and the same map. */
    method RemoveDeletedEntries()
      requires Valid()
      modifies this
      ensures Valid() && deletedEntries == 0
      ensures forall i :: 0 <= i < entries ==> pollinfo[i].fd >= 0
      ensures unchanged(`timeout, `scanning, `regs)
    {
      hide Rep;
      var i := 0;
      while i < entries && deletedEntries > 0
        invariant Valid() && i <= entries
        invariant forall j :: 0 <= j < i ==> Live(Slots()[j])
        invariant unchanged(`timeout, `scanning, `regs)
        decreases entries - i
      {
        if pollinfo[i].fd < 0 {
          DropTomb(Slots(), i, regs);
          RemoveEntry(i);
          deletedEntries := deletedEntries - 1;
        } else {
          i := i + 1;
        }
      }
      NoTombs(Slots());
      assert forall j :: 0 <= j < entries ==> Slots()[j].poll == pollinfo[j];
    }

    /** Make room for one more row; what realloc leaves in it is of no account. */
    method Grow()
      requires Parallel()
      modifies `pollinfo, `callbacks, `datafields, `times, `size
      ensures Parallel() && entries < size && size >= old(size) && Slots() == old(Slots())
    {
      if entries >= size {
        var newsize := entries + 1;
        pollinfo, callbacks := pollinfo + [PollFd(0, {}, {})], callbacks + [0];
        datafields, times := datafields + [0], times + [0];
        size := newsize;
      }
    }

    /** Fill the next free row. */
    method Append(p: PollFd, callback: int, data: int, at: int)
      requires Parallel() && entries < size
      modifies `pollinfo, `callbacks, `datafields, `times, `entries
      ensures Parallel() && Slots() == old(Slots()) + [Slot(p, callback, data, at)]
    {
      var row := entries;
      entries := entries + 1;
      pollinfo := pollinfo[row := p];
      callbacks := callbacks[row := callback];
      datafields := datafields[row := data];
      times := times[row := at];
    }

    method FdsetRegister(fd: int, events: Bits, callback: int, data: int, at: int)
      requires Valid() && fd >= 0 && fd !in regs
      modifies this
      ensures Valid() && regs == old(regs)[fd := Reg(events, callback, data)]
      ensures Slots() == Step(old(Slots()), Register(fd, events, callback, data, at), scanning)
      ensures Slots() == old(Slots()) + [Slot(PollFd(fd, events, {}), callback, data, at)]
      ensures unchanged(`timeout, `scanning) && size >= old(size)
    {
      StepRefines(Slots(), Register(fd, events, callback, data, at), scanning, regs);
      Grow();
      Append(PollFd(fd, events, {}), callback, data, at);
      regs := regs[fd := Reg(events, callback, data)];
    }

    method FdsetListen(fd: int, mask: Bits, events: Bits, at: int)
      requires Valid() && fd >= 0
      modifies this
      ensures Valid() && regs == ApplyOp(old(regs), Listen(fd, mask, events, at))
      ensures Slots() == Step(old(Slots()), Listen(fd, mask, events, at), scanning)
      ensures unchanged(`entries, `timeout, `scanning, `size)
      ensures forall i :: 0 <= i < entries ==>
                if Slots()[i].poll.fd == fd then Relistened(old(Slots())[i], Slots()[i], mask, events, at, scanning)
                else Slots()[i] == old(Slots())[i]
    {
      ghost var s := Slots();
      ListenRefines(s, Listen(fd, mask, events, at), scanning, regs);
      ListenMeans(s, fd, mask, events, at, scanning, regs);
      var entry := FindEntry(fd);
      if entry < 0 {
        return;
      }
      var p := pollinfo[entry];
      p := p.(events := Copied(p.events, mask, events));
      if scanning {
        p := p.(revents := Cleared(p.revents, mask, events));
      }
      pollinfo := pollinfo[entry := p];
      times := times[entry := at];
      regs := ApplyOp(regs, Listen(fd, mask, events, at));
      assert Slots() == s[entry := Relisten(s[entry], mask, events, at, scanning)];
    }

    method FdsetUnregister(fd: int)
      requires Valid() && fd >= 0
      modifies this
      ensures Valid() && regs == old(regs) - {fd}
      ensures Slots() == Step(old(Slots()), Unregister(fd), scanning)
      ensures unchanged(`timeout, `scanning, `size)
    {
      hide Rep, Rows;
      ghost var s := Slots();
      UnregisterRefines(s, Unregister(fd), scanning, regs);
      var entry := FindEntry(fd);
      if entry < 0 {
        assert regs - {fd} == regs;
        return;
      }
      if entry == entries - 1 {
        entries := entries - 1;
        assert Slots() == s[..entry];
      } else if scanning {
        pollinfo := pollinfo[entry := pollinfo[entry].(fd := -1)];
        deletedEntries := deletedEntries + 1;
        assert Slots() == s[entry := Buried(s[entry])];
      } else {
        RemoveEntry(entry);
      }
      regs := regs - {fd};
    }

    /** poll() fills in the revents of the rows in use. */
    method Poll(reported: seq<Bits>)
      requires Settled() && |reported| == entries
      modifies this`pollinfo
      ensures Settled() && Slots() == Reported(old(Slots()), reported)
    {
      ghost var s := Slots();
      var p := pollinfo;
      var n := entries;
      pollinfo := seq(|p|, i requires 0 <= i < |p| && n == |reported| =>
        if i < n then p[i].(revents := reported[i]) else p[i]);
      assert Slots() == Reported(s, reported);
      ReportedRep(s, reported, regs);
    }

    method Perform(op: Op)
      requires Valid() && Legal(regs, op)
      modifies this
      ensures Valid() && regs == ApplyOp(old(regs), op)
      ensures Slots() == Step(old(Slots()), op, scanning)
      ensures unchanged(`timeout, `scanning) && size >= old(size)
    {
      match op
      case Register(fd, events, callback, data, at) => FdsetRegister(fd, events, callback, data, at);
      case Listen(fd, mask, events, at) => FdsetListen(fd, mask, events, at);
      case Unregister(fd) => FdsetUnregister(fd);
    }

    /** What a callback does to the set, one operation after the other. */
    method React(ops: seq<Op>)
      requires Valid() && scanning && LegalAll(regs, ops)
      modifies this
      ensures Valid() && regs == ApplyAll(old(regs), ops) && Slots() == PerformAll(old(Slots()), ops)
      ensures unchanged(`timeout, `scanning) && size >= old(size)
    {
      hide FDSet.Slots, Rep, Step;
      for i := 0 to |ops|
        invariant Valid() && scanning
        invariant LegalAll(regs, ops[i..]) && ApplyAll(regs, ops[i..]) == ApplyAll(old(regs), ops)
        invariant PerformAll(Slots(), ops[i..]) == PerformAll(old(Slots()), ops)
        invariant unchanged(`timeout, `scanning) && size >= old(size)
      {
        assert ops[i..][0] == ops[i] && ops[i..][1..] == ops[i + 1..];
        Perform(ops[i]);
      }
    }

    /** time(&set->times[i]): the row may be gone by now, its memory is not. */
    method Stamp(i: nat, at: int)
      requires Valid() && i < size
      modifies `times
      ensures Valid() && Slots() == Stamped(old(Slots()), i, at) && times == old(times)[i := at]
    {
      ghost var s := Slots();
      times := times[i := at];
      assert Slots() == Stamped(s, i, at);
      StampKeepsRep(s, i, at, regs);
    }

    /** The poller looks at row i. If the row is due, its callback is made and performs ops. */
    method Visit(i: nat, ops: seq<Op>, at: int, now: int) returns (called: Option<Event>)
      requires Valid() && scanning && i < entries && LegalAll(regs, ops)
      modifies this
      ensures Valid() && unchanged(`timeout, `scanning)
      ensures called ==
              if old(pollinfo)[i].revents != {} then
                Some(Called(old(pollinfo)[i].fd, old(pollinfo)[i].revents, old(callbacks)[i], old(datafields)[i], true))
              else if timeout > 0 && old(times)[i] + timeout <= now then
                Some(Called(old(pollinfo)[i].fd, {POLLERR}, old(callbacks)[i], old(datafields)[i], false))
              else None
      ensures called == if IsDue(old(Slots())[i], now, timeout) then Some(CallFor(old(Slots())[i])) else None
      ensures called.Some? && old(pollinfo)[i].revents != {} && i < entries ==> times[i] == at
      ensures regs == if called.Some? then ApplyAll(old(regs), ops) else old(regs)
      ensures Slots() ==
              if called.None? then old(Slots())
              else if old(Slots())[i].poll.revents != {} then Stamped(PerformAll(old(Slots()), ops), i, at)
              else PerformAll(old(Slots()), ops)
    {
      hide Rep, PerformAll, ApplyAll, LegalAll, Stamped;
      called := None;
      assert Slots()[i] == Slot(pollinfo[i], callbacks[i], datafields[i], times[i]);
      if pollinfo[i].revents != {} {
        called := Some(Called(pollinfo[i].fd, pollinfo[i].revents, callbacks[i], datafields[i], true));
        React(ops);
        Stamp(i, at);
      } else if timeout > 0 && times[i] + timeout - now <= 0 {
        called := Some(Called(pollinfo[i].fd, {POLLERR}, callbacks[i], datafields[i], false));
        React(ops);
      }
    }

    /** One pass over the table after poll(): the rows, the calls made and the map are those of the trace. */
    method Scan(react: nat -> seq<Op>, clock: nat -> int, now: int) returns (calls: seq<Event>)
      requires Settled() && Scripted(regs, react, now)
      modifies this
      ensures Valid() && !scanning && timeout == old(timeout)
      ensures AllTimely(Script(react, clock, now, timeout))
      ensures var q := ScanTrace(old(Slots()), Script(react, clock, now, timeout));
              Slots() == q.slots && calls == CallsOf(q.past) && regs == MapAfter(old(regs), react, |calls|)
    {
      hide Rep, Scripted, LegalAll, ApplyAll, MapAfter, PerformAll, Recorded, Sum, IsDue, Stamped, Zip;
      ghost var m, s := regs, Slots();
      ghost var sc := Script(react, clock, now, timeout);
      assert Ready(s, m, sc);
      ReadyIsTimely(s, m, sc);
      scanning, calls := true, [];
      MapAtStart(m, react);
      var i := 0;
      ghost var p := Point(s, 0, Begin);
      while i < entries
        invariant Valid() && scanning && timeout == sc.timeout
        invariant regs == MapAfter(m, react, |calls|)
        invariant p.slots == Slots() && p.calls == |calls| && CallsOf(p.past) == calls
        invariant Trace(p, i, sc) == ScanTrace(s, sc)
        decreases Sum(Slots(), i, Due(now, sc.timeout)), entries - i
      {
        ScriptedAt(m, react, now, |calls|);
        TurnShrinks(p, i, sc);
        RecordedCalls(Then(p.past, CallFor(p.slots[i])), react(|calls|));
        var called := Visit(i, react(|calls|), clock(|calls|), now);
        if called.Some? {
          calls := calls + [called.value];
        }
        p := Turn(p, i, sc);
        i := i + 1;
      }
      scanning := false;
    }

    /** One round of the poller: poll, scan, sweep. */
    method PollOnce(reported: seq<Bits>, react: nat -> seq<Op>, clock: nat -> int, now: int) returns (calls: seq<Event>)
      requires Settled() && |reported| == entries && Scripted(regs, react, now)
      modifies this
      ensures Settled() && timeout == old(timeout) && AllTimely(Script(react, clock, now, timeout))
      ensures calls == CallsOf(ScanTrace(Reported(old(Slots()), reported), Script(react, clock, now, timeout)).past)
      ensures regs == MapAfter(old(regs), react, |calls|)
    {
      hide Rep, Scripted, MapAfter, FDSet.Slots;
      Poll(reported);
      calls := Scan(react, clock, now);
      if deletedEntries > 0 {
        RemoveDeletedEntries();
      }
    }
  }
}
