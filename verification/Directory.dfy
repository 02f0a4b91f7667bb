/** The SMSC directory shared by two processes: smpp-smsc/smsc.c owns the list, smpp-esme keeps a copy
    built from messages on a FIFO channel. Routing positions are computed on the copy and looked up in
    the original. */
module SmscDirectory {
  import opened Common

  datatype Smsc = Smsc(id: string, kind: string, status: int, mode: int)

  datatype Msg = NoOfSmsc(n: nat) | InfoSmsc(smsc: Smsc) | OtherMsg

  function Ids(list: seq<Smsc>): (r: seq<string>)
    ensures |r| == |list|
  {
    seq(|list|, i requires 0 <= i < |list| => list[i].id)
  }

  // ---------------------------------------------------------------------------
  // The receiving side
  // ---------------------------------------------------------------------------

  /** The statics of handle_request and the list it maintains. */
  datatype Copy = Copy(total: int, received: int, list: seq<Smsc>)

  const BLANK := Copy(-1, -1, [])

  /** update_smsc_list: the first entry with that id takes the status. */
  function Updated(list: seq<Smsc>, x: Smsc): (r: seq<Smsc>)
    ensures Ids(r) == Ids(list)
  {
    if list == [] then []
    else if list[0].id == x.id then [list[0].(status := x.status)] + list[1..]
    else (
      var rest := Updated(list[1..], x);
      assert forall i :: 0 <= i < |rest| ==> rest[i].id == Ids(rest)[i] == Ids(list[1..])[i] == list[i + 1].id;
      [list[0]] + rest)
  }

  function Handle(c: Copy, m: Msg): Copy {
    match m
    case NoOfSmsc(n) => Copy(n, -1, [])
    case InfoSmsc(x) =>
      if c.received < c.total - 1 then Copy(c.total, c.received + 1, c.list + [x])
      else c.(list := Updated(c.list, x))
    case OtherMsg => c
  }

  /** The first entry of that id, if any, is the one that changes. */
  lemma {:induction false} UpdatedAt(list: seq<Smsc>, x: Smsc, i: nat)
    requires i <= |list| && forall j :: 0 <= j < i ==> list[j].id != x.id
    requires i < |list| ==> list[i].id == x.id
    ensures Updated(list, x) == if i < |list| then list[i := list[i].(status := x.status)] else list
  {
    hide Ids;
    if i > 0 {
      UpdatedAt(list[1..], x, i - 1);
    }
  }

  class Receiver {
    var totalSmsc: int
    var smscDataReceived: int
    var smscList: seq<Smsc>

    ghost function View(): Copy
      reads this
    {
      Copy(totalSmsc, smscDataReceived, smscList)
    }

    constructor ()
      ensures View() == BLANK
    {
      totalSmsc, smscDataReceived, smscList := -1, -1, [];
    }

    method UpdateSmscList(x: Smsc)
      modifies `smscList
      ensures smscList == Updated(old(smscList), x)
    {
      hide Ids;
      ghost var list := smscList;
      for i := 0 to |smscList|
        invariant smscList == list && forall j :: 0 <= j < i ==> list[j].id != x.id
      {
        if x.id == smscList[i].id {
          smscList := smscList[i := smscList[i].(status := x.status)];
          UpdatedAt(list, x, i);
          return;
        }
      }
      UpdatedAt(list, x, |list|);
    }

    method HandleRequest(m: Msg)
      modifies this
      ensures View() == Handle(old(View()), m)
    {
      match m
      case NoOfSmsc(n) =>
        totalSmsc := n;
        smscDataReceived := -1;
        smscList := [];
      case InfoSmsc(x) =>
        if smscDataReceived < totalSmsc - 1 {
          smscDataReceived := smscDataReceived + 1;
          smscList := smscList + [x];
        } else {
          UpdateSmscList(x);
        }
      case OtherMsg =>
    }
  }

  // ---------------------------------------------------------------------------
  // The sending side
  // ---------------------------------------------------------------------------

  /** start2_smsc refuses to start with two SMSCs of the same id. */
  method DuplicateId(list: seq<Smsc>) returns (dup: bool)
    ensures dup <==> exists i, j :: 0 <= i < j < |list| && list[i].id == list[j].id
  {
    dup := false;
    if |list| > 1 {
      for i := 0 to |list|
        invariant forall a, b :: 0 <= a < b < |list| && a < i ==> list[a].id != list[b].id
      {
        for j := 1 + i to |list|
          invariant forall b :: i < b < j ==> list[i].id != list[b].id
        {
          if list[i].id == list[j].id {
            return true;
          }
        }
      }
    }
  }

  /** A routed submit: the position that travels, and the id it stood for. */
  datatype Submit = Submit(position: nat, id: string)

  datatype State = State(
    smscs: seq<Smsc>,        // the list of the SMSC process
    sending: Option<nat>,    // next entry of an initial batch under way
    channel: seq<Msg>,       // towards the ESME process
    copy: Copy,              // the ESME process
    submits: seq<Submit>)    // towards the SMSC process

  datatype Step =
    | BeginBatch                      // send_system_info_init: the count
    | SendEntry                       // send_system_info_init: one entry
    | Periodic(i: nat)                // send_system_info: one entry
    | Change(i: nat, status: int, mode: int)
    | Restart(i: nat, renewed: Smsc)    // smsc2_restart_smsc: delete, then insert in place
    | SendOther
    | Receive                         // handle_request on the next message
    | EsmeRestarts                    // the channel is gone, the copy is blank
    | Route(position: nat)            // rout_pdu emits a position
    | LookUp                          // smsc2_rout takes the next submit

  ghost predicate Enabled(s: State, step: Step) {
    match step
    case BeginBatch => s.sending.None? && s.smscs != []
    case SendEntry => s.sending.Some? && s.sending.value < |s.smscs|
    case Periodic(i) => s.sending.None? && i < |s.smscs|
    case Change(i, _, _) => i < |s.smscs|
    case Restart(i, renewed) => i < |s.smscs| && renewed.id == s.smscs[i].id
    case SendOther => true
    case Receive => s.channel != []
    case EsmeRestarts => true
    case Route(position) => position < |s.copy.list|
    case LookUp => s.submits != []
  }

  ghost function Do(s: State, step: Step): State
    requires Enabled(s, step)
  {
    match step
    case BeginBatch => s.(channel := s.channel + [NoOfSmsc(|s.smscs|)], sending := Some(0))
    case SendEntry =>
      var i := s.sending.value;
      s.(channel := s.channel + [InfoSmsc(s.smscs[i])], sending := if i + 1 == |s.smscs| then None else Some(i + 1))
    case Periodic(i) => s.(channel := s.channel + [InfoSmsc(s.smscs[i])])
    case Change(i, status, mode) => s.(smscs := s.smscs[i := s.smscs[i].(status := status, mode := mode)])
    case Restart(i, renewed) =>
      var deleted := s.smscs[..i] + s.smscs[i + 1..];
      s.(smscs := deleted[..i] + [renewed] + deleted[i..])
    case SendOther => s.(channel := s.channel + [OtherMsg])
    case Receive => s.(copy := Handle(s.copy, s.channel[0]), channel := s.channel[1..])
    case EsmeRestarts => s.(copy := BLANK, channel := [])
    case Route(position) => s.(submits := s.submits + [Submit(position, s.copy.list[position].id)])
    case LookUp => s.(submits := s.submits[1..])
  }

  ghost predicate Initial(s: State) {
    s.sending.None? && s.channel == [] && s.copy == BLANK && s.submits == []
  }

  // ---------------------------------------------------------------------------
  // Alignment
  // ---------------------------------------------------------------------------

  /** The copy once everything in flight has arrived. */
  ghost function Eventually(c: Copy, channel: seq<Msg>): Copy
    decreases |channel|
  {
    if channel == [] then c else Eventually(Handle(c, channel[0]), channel[1..])
  }

  /** The copy is a prefix of the list, id by id, now and after each message in flight. */
  ghost predicate Aligned(ids: seq<string>, c: Copy, channel: seq<Msg>)
    decreases |channel|
  {
    Ids(c.list) <= ids && (channel != [] ==> Aligned(ids, Handle(c, channel[0]), channel[1..]))
  }

  /** Any further entry will only update a status. */
  ghost predicate Full(c: Copy) { c.received >= c.total - 1 }

  /** Exactly the first i entries of a batch have arrived. */
  ghost predicate MidBatch(ids: seq<string>, c: Copy, i: nat) {
    i <= |ids| && c.total == |ids| && c.received == i - 1 && Ids(c.list) == ids[..i]
  }

  ghost predicate Inv(s: State) {
    var ids := Ids(s.smscs);
    var last := Eventually(s.copy, s.channel);
    && Aligned(ids, s.copy, s.channel)
    && (s.sending.None? ==> Full(last))
    && (s.sending.Some? ==> s.sending.value < |ids| && (Full(last) || MidBatch(ids, last, s.sending.value)))
    && forall k :: 0 <= k < |s.submits| ==>
         s.submits[k].position < |ids| && ids[s.submits[k].position] == s.submits[k].id
  }

  lemma {:induction false} SendOne(ids: seq<string>, c: Copy, channel: seq<Msg>, m: Msg)
    ensures Eventually(c, channel + [m]) == Handle(Eventually(c, channel), m)
    ensures Aligned(ids, c, channel + [m]) <==>
              Aligned(ids, c, channel) && Ids(Handle(Eventually(c, channel), m).list) <= ids
    decreases |channel|
  {
    if channel != [] {
      assert (channel + [m])[1..] == channel[1..] + [m];
      SendOne(ids, Handle(c, channel[0]), channel[1..], m);
    }
  }

  lemma {:induction false} AlignedLast(ids: seq<string>, c: Copy, channel: seq<Msg>)
    requires Aligned(ids, c, channel)
    ensures Ids(Eventually(c, channel).list) <= ids
    decreases |channel|
  {
    if channel != [] {
      AlignedLast(ids, Handle(c, channel[0]), channel[1..]);
    }
  }

  lemma IdsAppend(list: seq<Smsc>, x: Smsc)
    ensures Ids(list + [x]) == Ids(list) + [x.id]
  {
  }

  lemma StartHolds(s: State)
    requires Initial(s)
    ensures Inv(s)
  {
  }

  lemma SendingKeeps(s: State, step: Step)
    requires Inv(s) && Enabled(s, step) && (step.BeginBatch? || step.SendEntry? || step.Periodic? || step.SendOther?)
    ensures Inv(Do(s, step))
  {
    var ids, last := Ids(s.smscs), Eventually(s.copy, s.channel);
    var t := Do(s, step);
    var m := t.channel[|s.channel|];
    assert t.channel == s.channel + [m];
    SendOne(ids, s.copy, s.channel, m);
    AlignedLast(ids, s.copy, s.channel);
    if step.SendEntry? {
      IdsAppend(last.list, s.smscs[s.sending.value]);
    }
  }

  lemma SameIdsKeeps(s: State, step: Step)
    requires Inv(s) && Enabled(s, step) && (step.Change? || step.Restart?)
    ensures Inv(Do(s, step))
  {
    assert Ids(Do(s, step).smscs) == Ids(s.smscs);
  }

  /** Every step of either process keeps the alignment. */
  lemma StepKeeps(s: State, step: Step)
    requires Inv(s) && Enabled(s, step)
    ensures Inv(Do(s, step))
  {
    match step
    case BeginBatch => SendingKeeps(s, step);
    case SendEntry => SendingKeeps(s, step);
    case Periodic(_) => SendingKeeps(s, step);
    case SendOther => SendingKeeps(s, step);
    case Change(_, _, _) => SameIdsKeeps(s, step);
    case Restart(_, _) => SameIdsKeeps(s, step);
    case Receive =>
    case EsmeRestarts =>
    case Route(position) => assert Ids(s.copy.list)[position] == s.copy.list[position].id;
    case LookUp =>
  }

  ghost predicate CanRun(s: State, steps: seq<Step>)
    decreases |steps|
  {
    steps == [] || (Enabled(s, steps[0]) && CanRun(Do(s, steps[0]), steps[1..]))
  }

  ghost function Run(s: State, steps: seq<Step>): State
    requires CanRun(s, steps)
    decreases |steps|
  {
    if steps == [] then s else Run(Do(s, steps[0]), steps[1..])
  }

  lemma {:induction false} RunKeeps(s: State, steps: seq<Step>)
    requires Inv(s) && CanRun(s, steps)
    ensures Inv(Run(s, steps))
    decreases |steps|
  {
    if steps != [] {
      StepKeeps(s, steps[0]);
      RunKeeps(Do(s, steps[0]), steps[1..]);
    }
  }

  /** In every reachable state the copy is a prefix of the list, id by id; and every position in flight
      denotes, when it is looked up, the SMSC it was computed for. */
  lemma PositionsAgree(s: State, steps: seq<Step>)
    requires Initial(s) && CanRun(s, steps)
    ensures var t := Run(s, steps);
            && Ids(t.copy.list) <= Ids(t.smscs)
            && forall k :: 0 <= k < |t.submits| ==>
                 t.submits[k].position < |t.smscs| && t.smscs[t.submits[k].position].id == t.submits[k].id
  {
    StartHolds(s);
    RunKeeps(s, steps);
    var t := Run(s, steps);
    forall k | 0 <= k < |t.submits|
      ensures t.submits[k].position < |t.smscs| && t.smscs[t.submits[k].position].id == t.submits[k].id
    {
      assert Ids(t.smscs)[t.submits[k].position] == t.submits[k].id;
    }
  }

  /** The entries of a batch from position i on. */
  ghost function Entries(smscs: seq<Smsc>, i: nat): seq<Msg>
    requires i <= |smscs|
    decreases |smscs| - i
  {
    if i == |smscs| then [] else [InfoSmsc(smscs[i])] + Entries(smscs, i + 1)
  }

  lemma {:induction false} EntriesArrive(smscs: seq<Smsc>, c: Copy, i: nat)
    requires i <= |smscs| && c.total == |smscs| && c.received == i - 1 && c.list == smscs[..i]
    ensures var after := Eventually(c, Entries(smscs, i)); after.list == smscs && after.total == |smscs| && Full(after)
    decreases |smscs| - i
  {
    if i < |smscs| {
      var next := Handle(c, InfoSmsc(smscs[i]));
      assert smscs[..i + 1] == smscs[..i] + [smscs[i]];
      EntriesArrive(smscs, next, i + 1);
      assert Entries(smscs, i)[1..] == Entries(smscs, i + 1);
    } else {
      assert smscs[..i] == smscs;
    }
  }

  /** A batch delivered without interruption makes the copy the whole list, with every id, type, status and mode,
      whatever the copy was before. */
  lemma BatchCompletes(smscs: seq<Smsc>, c: Copy)
    ensures var after := Eventually(c, [NoOfSmsc(|smscs|)] + Entries(smscs, 0));
            after.list == smscs && Full(after)
  {
    var start := Handle(c, NoOfSmsc(|smscs|));
    assert start.list == [] == smscs[..0];
    EntriesArrive(smscs, start, 0);
    assert ([NoOfSmsc(|smscs|)] + Entries(smscs, 0))[1..] == Entries(smscs, 0);
  }

  // ---------------------------------------------------------------------------
  // Why the batch must not be interrupted
  // ---------------------------------------------------------------------------

  ghost predicate DistinctIds(smscs: seq<Smsc>) {
    forall i, j :: 0 <= i < j < |smscs| ==> smscs[i].id != smscs[j].id
  }

  /** Appending an entry keeps the alignment only if it is the entry expected. */
  lemma NextExpected(smscs: seq<Smsc>, c: Copy, k: nat, x: Smsc)
    requires MidBatch(Ids(smscs), c, k) && k < |smscs|
    ensures Ids(Handle(c, InfoSmsc(x)).list) <= Ids(smscs) <==> x.id == smscs[k].id
    ensures x.id == smscs[k].id ==> MidBatch(Ids(smscs), Handle(c, InfoSmsc(x)), k + 1)
  {
    IdsAppend(c.list, x);
    var ids := Ids(smscs);
    assert ids[..k + 1] == ids[..k] + [ids[k]];
    assert (Ids(c.list) + [x.id])[k] == x.id;
  }

  lemma AlignedCons(ids: seq<string>, c: Copy, m: Msg, rest: seq<Msg>)
    ensures Aligned(ids, c, [m] + rest) <==> Ids(c.list) <= ids && Aligned(ids, Handle(c, m), rest)
  {
    assert ([m] + rest)[1..] == rest;
  }

  ghost function Infos(xs: seq<Smsc>): seq<Msg> {
    if xs == [] then [] else [InfoSmsc(xs[0])] + Infos(xs[1..])
  }

  /** A full copy is only updated, whatever arrives. */
  lemma {:induction false} FullStaysAligned(ids: seq<string>, c: Copy, xs: seq<Smsc>)
    requires Full(c) && Ids(c.list) <= ids
    ensures Aligned(ids, c, Infos(xs))
    decreases |xs|
  {
    if xs != [] {
      FullStaysAligned(ids, Handle(c, InfoSmsc(xs[0])), xs[1..]);
      AlignedCons(ids, c, InfoSmsc(xs[0]), Infos(xs[1..]));
    }
  }

  /** Whatever mixture of batch and periodic entries arrives after k entries of a batch: the copy stays aligned if
      and only if the entries that fill it are the ones expected, in order. */
  lemma {:induction false} StreamAlignedIff(smscs: seq<Smsc>, c: Copy, k: nat, xs: seq<Smsc>)
    requires MidBatch(Ids(smscs), c, k)
    ensures Aligned(Ids(smscs), c, Infos(xs)) <==>
            forall j :: 0 <= j < |xs| && k + j < |smscs| ==> xs[j].id == smscs[k + j].id
    decreases |xs|
  {
    hide Updated, Aligned;
    var ids := Ids(smscs);
    if k == |smscs| || xs == [] {
      FullOrNothing(smscs, c, k, xs);
    } else {
      NextExpected(smscs, c, k, xs[0]);
      AlignedCons(ids, c, InfoSmsc(xs[0]), Infos(xs[1..]));
      var next := Handle(c, InfoSmsc(xs[0]));
      if xs[0].id == smscs[k].id {
        StreamAlignedIff(smscs, next, k + 1, xs[1..]);
        ShiftExpected(smscs, k, xs);
      } else {
        AlignedNow(ids, next, Infos(xs[1..]));
      }
    }
  }

  lemma FullOrNothing(smscs: seq<Smsc>, c: Copy, k: nat, xs: seq<Smsc>)
    requires MidBatch(Ids(smscs), c, k) && (k == |smscs| || xs == [])
    ensures Aligned(Ids(smscs), c, Infos(xs))
  {
    if k == |smscs| {
      FullStaysAligned(Ids(smscs), c, xs);
    }
  }

  lemma AlignedNow(ids: seq<string>, c: Copy, channel: seq<Msg>)
    ensures Aligned(ids, c, channel) ==> Ids(c.list) <= ids
  {
  }

  lemma ShiftExpected(smscs: seq<Smsc>, k: nat, xs: seq<Smsc>)
    requires xs != [] && k < |smscs| && xs[0].id == smscs[k].id
    ensures (forall j :: 0 <= j < |xs| && k + j < |smscs| ==> xs[j].id == smscs[k + j].id) <==>
            forall j :: 0 <= j < |xs[1..]| && k + 1 + j < |smscs| ==> xs[1..][j].id == smscs[k + 1 + j].id
  {
    if forall j :: 0 <= j < |xs[1..]| && k + 1 + j < |smscs| ==> xs[1..][j].id == smscs[k + 1 + j].id {
      forall j | 0 <= j < |xs| && k + j < |smscs|
        ensures xs[j].id == smscs[k + j].id
      {
        if j > 0 {
          assert xs[j] == xs[1..][j - 1] && smscs[k + j] == smscs[k + 1 + (j - 1)];
        }
      }
    } else {
      var j :| 0 <= j < |xs[1..]| && k + 1 + j < |smscs| && xs[1..][j].id != smscs[k + 1 + j].id;
      assert xs[j + 1] == xs[1..][j] && smscs[k + (j + 1)] == smscs[k + 1 + j];
    }
  }

  lemma {:induction false} EntriesAreInfos(smscs: seq<Smsc>, k: nat)
    requires k <= |smscs|
    ensures Entries(smscs, k) == Infos(smscs[k..])
    decreases |smscs| - k
  {
    if k < |smscs| {
      EntriesAreInfos(smscs, k + 1);
      assert smscs[k..][1..] == smscs[k + 1..];
    }
  }

  lemma {:induction false} InfosAppend(xs: seq<Smsc>, ys: seq<Smsc>)
    ensures Infos(xs + ys) == Infos(xs) + Infos(ys)
  {
    if xs == [] {
      assert xs + ys == ys;
    } else {
      assert (xs + ys)[1..] == xs[1..] + ys;
      InfosAppend(xs[1..], ys);
    }
  }

  /** One stray entry for row i, with distinct ids: only the very last entry may be sent twice. */
  lemma InterruptedIff(smscs: seq<Smsc>, c: Copy, k: nat, i: nat)
    requires DistinctIds(smscs) && MidBatch(Ids(smscs), c, k) && k < |smscs| && i < |smscs|
    ensures Aligned(Ids(smscs), c, [InfoSmsc(smscs[i])] + Entries(smscs, k)) <==> i == k == |smscs| - 1
  {
    hide Aligned, Updated;
    var xs := [smscs[i]] + smscs[k..];
    EntriesAreInfos(smscs, k);
    assert xs[1..] == smscs[k..];
    StreamAlignedIff(smscs, c, k, xs);
    assert xs[0] == smscs[i] && xs[1] == smscs[k];
    assert forall j :: 1 <= j < |xs| ==> xs[j] == smscs[k + j - 1];
    if i == k && k < |smscs| - 1 {
      assert xs[1].id != smscs[k + 1].id;
    }
  }

  /** A whole periodic round that slips in right after the count does no harm. A whole round later in the batch, with
      distinct ids, does: k entries have arrived, and the round begins with the first again. */
  lemma WholeRoundIff(smscs: seq<Smsc>, c: Copy, k: nat)
    requires DistinctIds(smscs) && MidBatch(Ids(smscs), c, k) && k < |smscs|
    ensures Aligned(Ids(smscs), c, Infos(smscs) + Entries(smscs, k)) <==> k == 0
  {
    hide Aligned, Updated;
    var xs := smscs + smscs[k..];
    EntriesAreInfos(smscs, k);
    InfosAppend(smscs, smscs[k..]);
    StreamAlignedIff(smscs, c, k, xs);
    assert forall j :: 0 <= j < |smscs| ==> xs[j] == smscs[j];
    if k > 0 {
      assert xs[0].id != smscs[k + 0].id;
    }
  }

  /** With SMSCs "a" and "b", a periodic "a" between the two entries leaves the copy with "a" twice. */
  lemma InterruptedBatch(a: Smsc, b: Smsc)
    requires a.id == "a" && b.id == "b"
    ensures var c := Eventually(BLANK, [NoOfSmsc(2), InfoSmsc(a), InfoSmsc(a), InfoSmsc(b)]);
            Ids(c.list) == ["a", "a"] && !(Ids(c.list) <= Ids([a, b]))
  {
    var x, y := InfoSmsc(a), InfoSmsc(b);
    var c1 := Handle(BLANK, NoOfSmsc(2));
    var c2 := Handle(c1, x);
    var c3 := Handle(c2, x);
    assert c3.list == [a, a];
    assert [NoOfSmsc(2), x, x, y][1..] == [x, x, y] && [x, x, y][1..] == [x, y] && [x, y][1..] == [y] && [y][1..] == [];
    assert Eventually(BLANK, [NoOfSmsc(2), x, x, y]) == Eventually(c1, [x, x, y]) == Eventually(c2, [x, y])
        == Eventually(c3, [y]) == Eventually(Handle(c3, y), []) == Handle(c3, y);
    assert Ids(Handle(c3, y).list) == Ids(c3.list) == ["a", "a"];
    assert Ids([a, b])[1] == "b";
  }
}
