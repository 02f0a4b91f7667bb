/** The routing lists of a submitted message: rout_pdu in smpp-esme/esme.c, and the configuration check it
    leans on, verify_config_para in smpp-esme/config.c. */
module Routing {
  import opened Common
  import opened SmscDirectory

  /** What routing needs of a configured client; an absent preferred list is empty. */
  datatype RoutingClient = RoutingClient(name: string, dedicated: Option<string>, preferred: seq<string>)

  /** Whether an SMSC takes numbers of this type and can transmit. */
  predicate Capable(x: Smsc, numberType: string) {
    (numberType == x.kind || x.kind == "all") && (x.mode == 1 || x.mode == 3)
  }

  // ---------------------------------------------------------------------------
  // verify_config_para
  // ---------------------------------------------------------------------------

  ghost predicate UniqueNames(accounts: seq<RoutingClient>) {
    forall i, j :: 0 <= i < j < |accounts| ==> accounts[i].name != accounts[j].name
  }

  /** No account prefers an SMSC that some account has dedicated. */
  ghost predicate NoneShared(accounts: seq<RoutingClient>) {
    forall i, j, k :: 0 <= i < |accounts| && 0 <= j < |accounts[i].preferred| && 0 <= k < |accounts| ==>
      accounts[k].dedicated != Some(accounts[i].preferred[j])
  }

  method RepeatedName(names: seq<string>) returns (dup: bool)
    ensures dup <==> exists i, j :: 0 <= i < j < |names| && names[i] == names[j]
  {
    for i := 0 to |names|
      invariant forall k, j :: 0 <= k < i && 0 <= j < |names| && j != k ==> names[k] != names[j]
    {
      for j := 0 to |names|
        invariant forall l :: 0 <= l < j && l != i ==> names[i] != names[l]
      {
        if names[i] == names[j] && i != j {
          assert i < j || j < i;
          return true;
        }
      }
    }
    dup := false;
  }

  method DedicatedList(accounts: seq<RoutingClient>) returns (d: seq<string>)
    ensures forall x :: x in d <==> exists k :: 0 <= k < |accounts| && accounts[k].dedicated == Some(x)
  {
    d := [];
    for i := 0 to |accounts|
      invariant forall x :: x in d <==> exists k :: 0 <= k < i && accounts[k].dedicated == Some(x)
    {
      if accounts[i].dedicated.Some? {
        d := d + [accounts[i].dedicated.value];
      }
    }
  }

  /** Accepts exactly the configurations in which names are unique and no SMSC is both dedicated and preferred. */
  method VerifyConfigPara(accounts: seq<RoutingClient>) returns (code: int)
    ensures code == 0 || code == -1
    ensures code == 0 <==> UniqueNames(accounts) && NoneShared(accounts)
  {
    if |accounts| == 0 {
      return 0;
    }
    var names := [];
    for i := 0 to |accounts|
      invariant |names| == i && forall k :: 0 <= k < i ==> names[k] == accounts[k].name
    {
      names := names + [accounts[i].name];
    }
    var dup := RepeatedName(names);
    if dup {
      return -1;
    }
    var dedicated := DedicatedList(accounts);
    for i := 0 to |accounts|
      invariant forall k, j :: 0 <= k < i && 0 <= j < |accounts[k].preferred| ==> accounts[k].preferred[j] !in dedicated
    {
      for j := 0 to |accounts[i].preferred|
        invariant forall l :: 0 <= l < j ==> accounts[i].preferred[l] !in dedicated
      {
        if accounts[i].preferred[j] in dedicated {
          return -1;
        }
      }
    }
    code := 0;
  }

  // ---------------------------------------------------------------------------
  // The positions, and what they are for
  // ---------------------------------------------------------------------------

  /** The first capable SMSC of that id from position i on, or -1. */
  function Match(smscs: seq<Smsc>, id: string, numberType: string, i: nat): (r: int)
    requires i <= |smscs|
    ensures r == -1 || (i <= r < |smscs| && smscs[r].id == id && Capable(smscs[r], numberType))
    ensures forall k :: i <= k < (if r < 0 then |smscs| else r) ==> !(smscs[k].id == id && Capable(smscs[k], numberType))
    decreases |smscs| - i
  {
    if i == |smscs| then -1
    else if smscs[i].id == id && Capable(smscs[i], numberType) then i
    else Match(smscs, id, numberType, i + 1)
  }

  /** The position found for an id, or -1. */
  function Pos(smscs: seq<Smsc>, id: string, numberType: string): int { Match(smscs, id, numberType, 0) }

  /** The SMSC ids an account asks for: its dedicated one, then the preferred ones in order. */
  function Wanted(a: RoutingClient): seq<string> {
    (if a.dedicated.Some? then [a.dedicated.value] else []) + a.preferred
  }

  /** The positions that go into the preferred list. */
  function Chosen(smscs: seq<Smsc>, wanted: seq<string>, numberType: string): (r: seq<nat>)
    ensures |r| <= |wanted|
    ensures forall k :: 0 <= k < |r| ==> r[k] < |smscs| && Capable(smscs[r[k]], numberType)
  {
    if wanted == [] then []
    else
      var rest := Chosen(smscs, wanted[..|wanted| - 1], numberType);
      var p := Pos(smscs, wanted[|wanted| - 1], numberType);
      if p < 0 then rest else rest + [p]
  }

  /** Whether the scan of the preferred list finds position i. Its entries are signed characters, so it never
      finds one above 127. */
  ghost predicate Found(chosen: seq<nat>, i: nat) { i in chosen && i < 128 }

  /** The positions below n that go into the allowed list. */
  ghost function Allowed(smscs: seq<Smsc>, chosen: seq<nat>, numberType: string, n: nat): (r: seq<nat>)
    requires n <= |smscs|
    ensures |r| <= n
    ensures forall k :: 0 <= k < |r| ==> r[k] < n
    ensures forall j, k :: 0 <= j < k < |r| ==> r[j] < r[k]
    ensures forall i :: i in r <==> 0 <= i < n && Capable(smscs[i], numberType) && !Found(chosen, i)
  {
    if n == 0 then []
    else
      var r := Allowed(smscs, chosen, numberType, n - 1);
      if Capable(smscs[n - 1], numberType) && !Found(chosen, n - 1) then r + [n - 1] else r
  }

  /** Every capable position occurs, none twice, nothing else occurs. */
  ghost predicate ExactlyOnce(smscs: seq<Smsc>, numberType: string, positions: seq<nat>) {
    && (forall i: nat :: i in positions <==> i < |smscs| && Capable(smscs[i], numberType))
    && (forall j, k :: 0 <= j < k < |positions| ==> positions[j] != positions[k])
  }

  /** No id that has a capable SMSC is asked for twice, and the SMSC found for an id is among the first 128. */
  ghost predicate Clean(smscs: seq<Smsc>, wanted: seq<string>, numberType: string) {
    && NoRepeat(smscs, wanted, numberType)
    && (forall j :: 0 <= j < |wanted| ==> Pos(smscs, wanted[j], numberType) < 128)
  }

  /** The chosen positions are those found for the wanted ids. */
  lemma {:induction false} ChosenFor(smscs: seq<Smsc>, wanted: seq<string>, numberType: string)
    ensures forall k :: 0 <= k < |wanted| && Pos(smscs, wanted[k], numberType) >= 0 ==>
              Pos(smscs, wanted[k], numberType) in Chosen(smscs, wanted, numberType)
    ensures forall p :: p in Chosen(smscs, wanted, numberType) ==>
              exists k :: 0 <= k < |wanted| && Pos(smscs, wanted[k], numberType) == p
  {
    if wanted != [] {
      var n := |wanted| - 1;
      ChosenFor(smscs, wanted[..n], numberType);
      forall p | p in Chosen(smscs, wanted, numberType)
        ensures exists k :: 0 <= k < |wanted| && Pos(smscs, wanted[k], numberType) == p
      {
        if p in Chosen(smscs, wanted[..n], numberType) {
          var k :| 0 <= k < n && Pos(smscs, wanted[..n][k], numberType) == p;
          assert wanted[k] == wanted[..n][k];
        } else {
          assert Pos(smscs, wanted[n], numberType) == p;
        }
      }
    }
  }

  ghost predicate Distinct(s: seq<nat>) {
    forall j, k :: 0 <= j < k < |s| ==> s[j] != s[k]
  }

  ghost predicate NoRepeat(smscs: seq<Smsc>, wanted: seq<string>, numberType: string) {
    forall j, k :: 0 <= j < k < |wanted| && wanted[j] == wanted[k] ==> Pos(smscs, wanted[j], numberType) < 0
  }

  lemma DistinctSnoc(c: seq<nat>, p: nat)
    ensures Distinct(c + [p]) <==> Distinct(c) && p !in c
  {
    assert (c + [p])[|c|] == p;
    assert forall k :: 0 <= k < |c| ==> (c + [p])[k] == c[k];
  }

  lemma NoRepeatEmpty(smscs: seq<Smsc>, numberType: string)
    ensures NoRepeat(smscs, [], numberType)
  {
  }

  lemma NoRepeatSnoc(smscs: seq<Smsc>, w: seq<string>, id: string, numberType: string)
    ensures NoRepeat(smscs, w + [id], numberType)
      <==> NoRepeat(smscs, w, numberType) && (Pos(smscs, id, numberType) < 0 || id !in w)
  {
    hide Pos;
    var v := w + [id];
    assert v[|w|] == id;
    assert forall k :: 0 <= k < |w| ==> v[k] == w[k];
    assert NoRepeat(smscs, v, numberType) ==> NoRepeat(smscs, w, numberType) by {
      assert forall j, k :: 0 <= j < k < |w| && w[j] == w[k] ==> v[j] == v[k];
    }
    if k :| 0 <= k < |w| && w[k] == id {
      assert v[k] == v[|w|];
    }
  }

  /** An id's position is chosen exactly when the id is wanted. */
  lemma PosChosenIff(smscs: seq<Smsc>, w: seq<string>, id: string, numberType: string)
    requires Pos(smscs, id, numberType) >= 0
    ensures Pos(smscs, id, numberType) in Chosen(smscs, w, numberType) <==> id in w
  {
    ChosenFor(smscs, w, numberType);
    var p := Pos(smscs, id, numberType);
    assert smscs[p].id == id;
    if p in Chosen(smscs, w, numberType) {
      var k :| 0 <= k < |w| && Pos(smscs, w[k], numberType) == p;
      assert smscs[p].id == w[k];
    }
  }

  /** Different ids have different positions, so a position repeats exactly when an id does. */
  lemma {:induction false} DistinctIff(smscs: seq<Smsc>, wanted: seq<string>, numberType: string)
    ensures Distinct(Chosen(smscs, wanted, numberType)) <==> NoRepeat(smscs, wanted, numberType)
  {
    hide Pos, NoRepeat;
    if wanted == [] {
      NoRepeatEmpty(smscs, numberType);
    } else {
      var n := |wanted| - 1;
      var w := wanted[..n];
      DistinctIff(smscs, w, numberType);
      assert wanted == w + [wanted[n]];
      NoRepeatSnoc(smscs, w, wanted[n], numberType);
      var p := Pos(smscs, wanted[n], numberType);
      if p >= 0 {
        PosChosenIff(smscs, w, wanted[n], numberType);
        DistinctSnoc(Chosen(smscs, w, numberType), p);
      }
    }
  }

  /** The preferred positions followed by the allowed ones. */
  ghost function Routes(smscs: seq<Smsc>, a: RoutingClient, numberType: string): seq<nat> {
    var chosen := Chosen(smscs, Wanted(a), numberType);
    chosen + Allowed(smscs, chosen, numberType, |smscs|)
  }

  lemma JoinDistinct(a: seq<nat>, b: seq<nat>)
    requires Distinct(b)
    ensures Distinct(a + b) <==> Distinct(a) && forall i :: i in a ==> i !in b
  {
    if Distinct(a + b) {
      assert forall k :: 0 <= k < |a| ==> (a + b)[k] == a[k];
      forall j, k | 0 <= j < |a| && 0 <= k < |b|
        ensures a[j] != b[k]
      {
        assert (a + b)[j] != (a + b)[|a| + k];
      }
    } else {
      var j, k :| 0 <= j < k < |a + b| && (a + b)[j] == (a + b)[k];
      if j < |a| <= k {
        assert a[j] in a && b[k - |a|] in b;
      }
    }
  }

  /** Every capable SMSC is listed exactly once if and only if the wanted ids are clean. */
  lemma ExactlyOnceIff(smscs: seq<Smsc>, a: RoutingClient, numberType: string)
    ensures ExactlyOnce(smscs, numberType, Routes(smscs, a, numberType)) <==> Clean(smscs, Wanted(a), numberType)
  {
    var chosen := Chosen(smscs, Wanted(a), numberType);
    var allowed := Allowed(smscs, chosen, numberType, |smscs|);
    DistinctIff(smscs, Wanted(a), numberType);
    ChosenFor(smscs, Wanted(a), numberType);
    JoinDistinct(chosen, allowed);
    var r := Routes(smscs, a, numberType);
    assert r == chosen + allowed;
    forall i: nat
      ensures i in r <==> i < |smscs| && Capable(smscs[i], numberType)
    {
      assert i in r <==> i in chosen || i in allowed;
    }
    assert ExactlyOnce(smscs, numberType, r) <==> Distinct(r);
    assert (forall i :: i in chosen ==> i !in allowed) <==> forall i :: i in chosen ==> i < 128 by {
      assert forall i :: i in chosen ==> (i in allowed <==> i >= 128);
    }
    assert (forall i :: i in chosen ==> i < 128)
      <==> forall j :: 0 <= j < |Wanted(a)| ==> Pos(smscs, Wanted(a)[j], numberType) < 128;
  }

  /** An accepted configuration with duplicate-free preferred lists, and at most 128 SMSCs, is always clean. */
  lemma AcceptedOnce(smscs: seq<Smsc>, accounts: seq<RoutingClient>, n: nat, numberType: string)
    requires n < |accounts| && NoneShared(accounts)
    requires forall j, k :: 0 <= j < k < |accounts[n].preferred| ==> accounts[n].preferred[j] != accounts[n].preferred[k]
    requires |smscs| <= 128
    ensures ExactlyOnce(smscs, numberType, Routes(smscs, accounts[n], numberType))
  {
    var a := accounts[n];
    var w := Wanted(a);
    var d := |w| - |a.preferred|;
    assert forall k :: d <= k < |w| ==> w[k] == a.preferred[k - d];
    assert d == 1 ==> a.dedicated == Some(w[0]);
    ExactlyOnceIff(smscs, a, numberType);
  }

  /** Without the account's own preferred list being duplicate-free, an accepted configuration lists one SMSC twice. */
  lemma RepeatedPreference(x: Smsc, name: string)
    requires Capable(x, "gsm")
    ensures var a := RoutingClient(name, None, [x.id, x.id]);
            NoneShared([a]) && UniqueNames([a]) && !ExactlyOnce([x], "gsm", Routes([x], a, "gsm"))
  {
    var a := RoutingClient(name, None, [x.id, x.id]);
    assert Wanted(a)[0] == x.id && Wanted(a)[1] == x.id;
    assert Pos([x], x.id, "gsm") == 0;
    ExactlyOnceIff([x], a, "gsm");
  }

  /** SMSC ids of different lengths. */
  function Id(n: nat): string { seq(n, _ => 'a') }

  /** An SMSC asked for at position 128 is listed twice, however clean the configuration is otherwise: as a signed char
      its position is negative, and the scan for the allowed list does not find it. */
  lemma FarPreference(name: string)
    ensures var smscs, a := FarSmscs(), RoutingClient(name, None, [Id(128)]);
            && NoneShared([a]) && UniqueNames([a])
            && (forall i, j :: 0 <= i < j < |smscs| ==> smscs[i].id != smscs[j].id)
            && !ExactlyOnce(smscs, "gsm", Routes(smscs, a, "gsm"))
  {
    hide FarSmscs, ExactlyOnce, Routes;
    var smscs, a := FarSmscs(), RoutingClient(name, None, [Id(128)]);
    FarIds();
    assert Wanted(a)[0] == Id(128);
    ExactlyOnceIff(smscs, a, "gsm");
  }

  function FarSmscs(): seq<Smsc> { seq(129, i requires 0 <= i < 129 => Smsc(Id(i), "all", 1, 3)) }

  lemma FarIds()
    ensures |FarSmscs()| == 129 && Pos(FarSmscs(), Id(128), "gsm") == 128
    ensures forall i, j :: 0 <= i < j < 129 ==> FarSmscs()[i].id != FarSmscs()[j].id
  {
    var smscs := FarSmscs();
    assert forall i :: 0 <= i < 129 ==> |smscs[i].id| == i;
    var p := Pos(smscs, Id(128), "gsm");
    assert smscs[128].id == Id(128) && Capable(smscs[128], "gsm");
    assert p >= 0 && |smscs[p].id| == p;
  }

  /** An SMSC is capable exactly when it takes the number's type, or all, and transmits: mode 1 or 3. */
  lemma CapableIff(x: Smsc, numberType: string)
    ensures Capable(x, numberType) <==> x.kind in {numberType, "all"} && x.mode in {1, 3}
  {
  }

  /** What is asked for first comes first: the lists are put together in the order of the ids. */
  lemma {:induction false} ChosenInOrder(smscs: seq<Smsc>, a: seq<string>, b: seq<string>, numberType: string)
    ensures Chosen(smscs, a + b, numberType) == Chosen(smscs, a, numberType) + Chosen(smscs, b, numberType)
    decreases |b|
  {
    hide Capable;
    if b == [] {
      assert a + b == a;
    } else {
      var n := |b| - 1;
      ChosenInOrder(smscs, a, b[..n], numberType);
      assert (a + b)[..|a + b| - 1] == a + b[..n];
    }
  }

  /** The dedicated SMSC, if it is capable, is the first position, and the preferred ones follow in their order. */
  lemma DedicatedFirst(smscs: seq<Smsc>, a: RoutingClient, numberType: string)
    ensures var d := if a.dedicated.Some? then Pos(smscs, a.dedicated.value, numberType) else -1;
            Chosen(smscs, Wanted(a), numberType) == (if d >= 0 then [d] else []) + Chosen(smscs, a.preferred, numberType)
    ensures a.dedicated.Some? && Pos(smscs, a.dedicated.value, numberType) >= 0 ==>
              Routes(smscs, a, numberType) != [] && Routes(smscs, a, numberType)[0] == Pos(smscs, a.dedicated.value, numberType)
  {
    if a.dedicated.Some? {
      ChosenInOrder(smscs, [a.dedicated.value], a.preferred, numberType);
      assert [a.dedicated.value][..0] == [];
    } else {
      assert Wanted(a) == a.preferred;
    }
  }

  /** There is a route exactly when some SMSC is capable. */
  lemma RoutableIff(smscs: seq<Smsc>, a: RoutingClient, numberType: string)
    ensures Routes(smscs, a, numberType) != [] <==> exists i :: 0 <= i < |smscs| && Capable(smscs[i], numberType)
  {
    var chosen := Chosen(smscs, Wanted(a), numberType);
    var allowed := Allowed(smscs, chosen, numberType, |smscs|);
    if chosen != [] {
      assert Capable(smscs[chosen[0]], numberType);
    } else if allowed != [] {
      assert allowed[0] in allowed;
      assert Capable(smscs[allowed[0]], numberType);
    } else {
      assert forall i :: 0 <= i < |smscs| && Capable(smscs[i], numberType) ==> i in allowed;
    }
  }

  /** Position in one process, SMSC in the other: in every reachable state of the directory protocol, each
      position routed from the copy denotes the SMSC of that id in the SMSC process's own list. */
  lemma RoutesDenote(s: State, steps: seq<Step>, a: RoutingClient, numberType: string, p: nat)
    requires Initial(s) && CanRun(s, steps)
    requires p in Routes(Run(s, steps).copy.list, a, numberType)
    ensures var t := Run(s, steps); p < |t.copy.list| && p < |t.smscs| && t.smscs[p].id == t.copy.list[p].id
  {
    PositionsAgree(s, steps);
    var t := Run(s, steps);
    var chosen := Chosen(t.copy.list, Wanted(a), numberType);
    assert p in chosen || p in Allowed(t.copy.list, chosen, numberType, |t.copy.list|);
    assert Ids(t.copy.list)[p] == Ids(t.smscs)[p];
  }

  // ---------------------------------------------------------------------------
  // rout_pdu
  // ---------------------------------------------------------------------------

  const ROUTE_MAX: nat := 256

  /** A position stored in a char and read back as an int. */
  function Signed(p: nat): (r: int)
    requires p < ROUTE_MAX
    ensures if p < 128 then r == p else -128 <= r < 0
  {
    if p < 128 then p else p - 256
  }

  /** What octstr_append_char keeps of a char. */
  function Octet(c: int): (r: nat)
    requires -128 <= c < 128
    ensures r < 256
    ensures forall p: nat :: p < 256 && c == Signed(p) ==> r == p
  {
    if c < 0 then c + 256 else c
  }

  method FindAccount(accounts: seq<RoutingClient>, name: string) returns (r: int)
    ensures -1 <= r < |accounts|
    ensures r >= 0 ==> accounts[r].name == name && forall k :: 0 <= k < r ==> accounts[k].name != name
    ensures r == -1 <==> forall k :: 0 <= k < |accounts| ==> accounts[k].name != name
  {
    for i := 0 to |accounts|
      invariant forall k :: 0 <= k < i ==> accounts[k].name != name
    {
      if accounts[i].name == name {
        return i;
      }
    }
    r := -1;
  }

  /** The inner search for one wanted id. */
  method FindSmsc(smscs: seq<Smsc>, id: string, numberType: string) returns (r: int)
    ensures r == Match(smscs, id, numberType, 0)
  {
    for j := 0 to |smscs|
      invariant Match(smscs, id, numberType, 0) == Match(smscs, id, numberType, j)
    {
      if smscs[j].id == id && Capable(smscs[j], numberType) {
        return j;
      }
    }
    r := -1;
  }

  /** The buffer holds these positions and -1 in the rest. */
  ghost predicate Holds(b: seq<int>, positions: seq<nat>) {
    && |b| == ROUTE_MAX && |positions| <= ROUTE_MAX
    && (forall k :: 0 <= k < |positions| ==> positions[k] < ROUTE_MAX && b[k] == Signed(positions[k]))
    && (forall k :: |positions| <= k < ROUTE_MAX ==> b[k] == -1)
  }

  method Blank() returns (b: array<int>)
    ensures fresh(b) && Holds(b[..], [])
  {
    b := new int[ROUTE_MAX];
    for i := 0 to ROUTE_MAX
      invariant forall k :: 0 <= k < i ==> b[k] == -1
    {
      b[i] := -1;
    }
  }

  /** buffer[index++] = i. */
  method Put(b: array<int>, index: nat, p: nat, ghost positions: seq<nat>)
    requires Holds(b[..], positions) && index == |positions| < ROUTE_MAX && p < ROUTE_MAX
    modifies b
    ensures Holds(b[..], positions + [p])
  {
    b[index] := Signed(p);
  }

  /** Whether position i is among the preferred ones; reads one slot past them, which is -1. */
  method AlreadyPreferred(b: array<int>, index: nat, i: nat, ghost positions: seq<nat>) returns (found: bool)
    requires Holds(b[..], positions) && index == |positions| < ROUTE_MAX
    ensures found <==> Found(positions, i)
  {
    found := false;
    if index > 0 {
      for j := 0 to index + 1
        invariant forall k :: 0 <= k < j ==> b[..][k] != i
      {
        if b[j] == i {
          assert b[..][j] == i;
          return true;
        }
      }
    }
  }

  /** The first index entries, appended character by character to an octet string. */
  method Emit(b: array<int>, index: nat, ghost positions: seq<nat>) returns (r: seq<nat>)
    requires Holds(b[..], positions) && index == |positions|
    ensures r == positions
  {
    r := [];
    for i := 0 to index
      invariant |r| == i && forall k :: 0 <= k < i ==> r[k] == positions[k]
    {
      assert b[..][i] == Signed(positions[i]);
      r := r + [Octet(b[i])];
    }
  }

  /** rout_pdu for a number of the given type. The two buffers hold 256 entries and the scan reads one past the
      preferred ones, hence the bounds. */
  method RoutPdu(accounts: seq<RoutingClient>, name: string, smscs: seq<Smsc>, numberType: string)
      returns (code: int, preferred: seq<nat>, allowed: seq<nat>)
    requires |smscs| <= ROUTE_MAX
    requires forall i :: 0 <= i < |accounts| ==> |Chosen(smscs, Wanted(accounts[i]), numberType)| < ROUTE_MAX
    ensures code == 0 || code == -1
    ensures code == 0 <==> && (exists k :: 0 <= k < |accounts| && accounts[k].name == name)
                           && (exists i :: 0 <= i < |smscs| && (smscs[i].kind == numberType || smscs[i].kind == "all")
                                 && (smscs[i].mode == 1 || smscs[i].mode == 3))
    ensures code == 0 ==> exists k :: 0 <= k < |accounts| && accounts[k].name == name &&
                            (forall j :: 0 <= j < k ==> accounts[j].name != name) &&
                            preferred + allowed == Routes(smscs, accounts[k], numberType) &&
                            preferred == Chosen(smscs, Wanted(accounts[k]), numberType)
  {
    preferred, allowed := [], [];
    var n := FindAccount(accounts, name);
    if n < 0 {
      return -1, [], [];
    }
    RoutableIff(smscs, accounts[n], numberType);
    preferred, allowed := Fill(smscs, accounts[n], numberType);
    code := if |preferred| > 0 || |allowed| > 0 then 0 else -1;
  }

  lemma {:induction false} ChosenGrows(smscs: seq<Smsc>, wanted: seq<string>, numberType: string, n: nat)
    requires n <= |wanted|
    ensures |Chosen(smscs, wanted[..n], numberType)| <= |Chosen(smscs, wanted, numberType)|
    decreases |wanted|
  {
    if n < |wanted| {
      assert wanted[..|wanted| - 1][..n] == wanted[..n];
      ChosenGrows(smscs, wanted[..|wanted| - 1], numberType, n);
    } else {
      assert wanted[..n] == wanted;
    }
  }

  lemma ChosenSnoc(smscs: seq<Smsc>, w: seq<string>, id: string, numberType: string)
    ensures Chosen(smscs, w + [id], numberType) ==
            Chosen(smscs, w, numberType) + (var p := Match(smscs, id, numberType, 0); if p < 0 then [] else [p])
  {
    assert (w + [id])[..|w|] == w;
  }

  /** One more wanted id: its SMSC, if there is a capable one, goes to the end of the preferred buffer. */
  method Choose(b: array<int>, index: nat, smscs: seq<Smsc>, id: string, numberType: string, ghost w: seq<string>)
      returns (next: nat)
    requires |smscs| <= ROUTE_MAX && |Chosen(smscs, w + [id], numberType)| < ROUTE_MAX
    requires index == |Chosen(smscs, w, numberType)| && Holds(b[..], Chosen(smscs, w, numberType))
    modifies b
    ensures next == |Chosen(smscs, w + [id], numberType)| && Holds(b[..], Chosen(smscs, w + [id], numberType))
  {
    hide Holds, Capable, Chosen;
    ChosenSnoc(smscs, w, id, numberType);
    ghost var chosen := Chosen(smscs, w, numberType);
    next := index;
    var p := FindSmsc(smscs, id, numberType);
    if p >= 0 {
      Put(b, index, p, chosen);
      next := index + 1;
    } else {
      assert Chosen(smscs, w + [id], numberType) == chosen;
    }
  }

  /** The dedicated SMSC and then the preferred ones. */
  method FillPreferred(smscs: seq<Smsc>, a: RoutingClient, numberType: string) returns (b: array<int>, index: nat)
    requires |smscs| <= ROUTE_MAX && |Chosen(smscs, Wanted(a), numberType)| < ROUTE_MAX
    ensures fresh(b) && index == |Chosen(smscs, Wanted(a), numberType)|
    ensures Holds(b[..], Chosen(smscs, Wanted(a), numberType))
  {
    hide Holds, Capable, Chosen;
    b := Blank();
    ghost var w: seq<string> := [];
    index := 0;
    assert |Chosen(smscs, w, numberType)| == 0;
    if a.dedicated.Some? {
      ChosenGrows(smscs, Wanted(a), numberType, 1);
      assert Wanted(a)[..1] == [] + [a.dedicated.value];
      index := Choose(b, index, smscs, a.dedicated.value, numberType, w);
      w := [a.dedicated.value];
    }
    ghost var first := w;
    for i := 0 to |a.preferred|
      invariant w == first + a.preferred[..i]
      invariant index == |Chosen(smscs, w, numberType)| < ROUTE_MAX && Holds(b[..], Chosen(smscs, w, numberType))
    {
      ghost var v := w + [a.preferred[i]];
      assert v == Wanted(a)[..|v|];
      ChosenGrows(smscs, Wanted(a), numberType, |v|);
      index := Choose(b, index, smscs, a.preferred[i], numberType, w);
      w := v;
    }
    assert w == Wanted(a);
  }

  /** Then everything capable that is not among them. */
  method FillAllowed(smscs: seq<Smsc>, preferredSmsc: array<int>, index: nat, numberType: string,
      ghost chosen: seq<nat>) returns (b: array<int>, indexAllowed: nat)
    requires |smscs| <= ROUTE_MAX && Holds(preferredSmsc[..], chosen) && index == |chosen| < ROUTE_MAX
    ensures fresh(b) && indexAllowed == |Allowed(smscs, chosen, numberType, |smscs|)|
    ensures Holds(b[..], Allowed(smscs, chosen, numberType, |smscs|))
  {
    hide Holds, Capable, Found;
    b := Blank();
    ghost var others: seq<nat> := [];
    indexAllowed := 0;
    for i := 0 to |smscs|
      invariant others == Allowed(smscs, chosen, numberType, i)
      invariant indexAllowed == |others| && Holds(b[..], others)
    {
      var skip := AlreadyPreferred(preferredSmsc, index, i, chosen);
      if skip {
        continue;
      }
      if Capable(smscs[i], numberType) {
        Put(b, indexAllowed, i, others);
        indexAllowed := indexAllowed + 1;
        others := others + [i];
      }
    }
  }

  method Fill(smscs: seq<Smsc>, a: RoutingClient, numberType: string) returns (preferred: seq<nat>, allowed: seq<nat>)
    requires |smscs| <= ROUTE_MAX && |Chosen(smscs, Wanted(a), numberType)| < ROUTE_MAX
    ensures preferred == Chosen(smscs, Wanted(a), numberType)
    ensures allowed == Allowed(smscs, preferred, numberType, |smscs|)
  {
    hide Holds, Capable, Found;
    ghost var chosen := Chosen(smscs, Wanted(a), numberType);
    var b, index := FillPreferred(smscs, a, numberType);
    var c, indexAllowed := FillAllowed(smscs, b, index, numberType, chosen);
    preferred := Emit(b, index, chosen);
    allowed := Emit(c, indexAllowed, Allowed(smscs, chosen, numberType, |smscs|));
  }
}
