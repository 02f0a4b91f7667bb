/** The registry of bound ESME accounts and their sessions: smpp-esme/esme.c. Binding and destroying are
    atomic steps, as if the list lock were held throughout. */
module EsmeRegistry {
  import opened Common

  // ---------------------------------------------------------------------------
  // Session ids
  // ---------------------------------------------------------------------------

  /** r is the least positive number not in use. */
  ghost predicate LeastFree(ids: seq<int>, r: int) {
    r >= 1 && r !in ids && forall k :: 1 <= k < r ==> k in ids
  }

  /** A list that contains 1..n has at least n entries. */
  lemma {:induction false} Pigeonhole(ids: seq<int>, n: nat)
    requires forall k :: 1 <= k <= n ==> k in ids
    ensures n <= |ids|
    decreases n
  {
    if n > 0 {
      assert n in ids;
      var i :| 0 <= i < |ids| && ids[i] == n;
      var rest := ids[..i] + ids[i + 1..];
      forall k | 1 <= k <= n - 1
        ensures k in rest
      {
        assert k in ids;
        var j :| 0 <= j < |ids| && ids[j] == k;
        assert rest[if j < i then j else j - 1] == k;
      }
      Pigeonhole(rest, n - 1);
    }
  }

  /** If the n entries are exactly 1..n, then n + 1 is free. */
  lemma AllTaken(ids: seq<int>)
    requires forall k :: 1 <= k <= |ids| ==> k in ids
    ensures LeastFree(ids, |ids| + 1)
  {
    if |ids| + 1 in ids {
      Pigeonhole(ids, |ids| + 1);
    }
  }

  lemma LeastFreeUnique(ids: seq<int>, a: int, b: int)
    requires LeastFree(ids, a) && LeastFree(ids, b)
    ensures a == b
  {
  }

  /** allocate_session_id. It finds the least free id for every list except one that holds both 1 and
      something below 1; session lists never do. */
  method AllocateSessionId(ids: seq<int>) returns (r: int)
    ensures LeastFree(ids, r) <==> !(1 in ids && exists x :: x in ids && x < 1)
  {
    var lowest := 0;
    for i := 0 to |ids|
      invariant i > 0 ==> lowest in ids && forall j :: 0 <= j < i ==> lowest <= ids[j]
      invariant i == 0 ==> lowest == 0
    {
      if i == 0 {
        lowest := ids[i];
      } else if ids[i] < lowest {
        lowest := ids[i];
      }
    }
    if lowest != 1 {
      return 1;
    }
    for i := 0 to |ids| - 1
      invariant forall k :: 1 <= k <= i + 1 ==> k in ids
    {
      if lowest + i + 1 !in ids {
        return lowest + i + 1;
      }
    }
    AllTaken(ids);
    r := lowest + |ids|;
  }

  ghost function SessionId(ids: seq<int>): (r: int)
    ensures LeastFree(ids, r)
  {
    FreeFrom(ids, 1)
  }

  ghost function FreeFrom(ids: seq<int>, k: nat): (r: int)
    requires k >= 1 && forall j :: 1 <= j < k ==> j in ids
    ensures LeastFree(ids, r)
    decreases |ids| + 1 - k
  {
    if k in ids then (Pigeonhole(ids, k); FreeFrom(ids, k + 1)) else k
  }

  // ---------------------------------------------------------------------------
  // Accounts, configuration, requests
  // ---------------------------------------------------------------------------

  datatype Session = Session(id: int, mode: int)

  datatype BoundAccount = BoundAccount(name: string, tx: seq<Session>, rx: seq<Session>)

  /** A configured client; a negative cap means no limit. */
  datatype Client = Client(name: string, password: string, mode: int, maxTx: int, maxRx: int)

  /** compare_date, evaluated outside. */
  datatype DateResult = Valid | ValidLater | NotValid | InvalidDate

  datatype Request = Request(name: string, password: Option<string>, mode: int, date: DateResult)

  function SessionIds(s: seq<Session>): (r: seq<int>)
    ensures |r| == |s| && forall i :: 0 <= i < |s| ==> r[i] == s[i].id
  {
    seq(|s|, i requires 0 <= i < |s| => s[i].id)
  }

  /** Position of the account, or -1: is_present_esme. */
  function Present(list: seq<BoundAccount>, name: string): (r: int)
    ensures -1 <= r < |list|
    ensures r >= 0 ==> list[r].name == name
    ensures r == -1 ==> forall i :: 0 <= i < |list| ==> list[i].name != name
  {
    if list == [] then -1
    else if list[0].name == name then 0
    else var r := Present(list[1..], name); if r < 0 then -1 else r + 1
  }

  /** smpp_client_find_username: the first client of that name. */
  function FindClient(clients: seq<Client>, name: string): (r: Option<Client>)
    ensures r.Some? ==> r.value in clients && r.value.name == name
    ensures r.None? <==> forall i :: 0 <= i < |clients| ==> clients[i].name != name
  {
    if clients == [] then None
    else if clients[0].name == name then Some(clients[0])
    else FindClient(clients[1..], name)
  }

  function TxCount(list: seq<BoundAccount>, name: string): nat {
    var i := Present(list, name);
    if i < 0 then 0 else |list[i].tx|
  }

  function RxCount(list: seq<BoundAccount>, name: string): nat {
    var i := Present(list, name);
    if i < 0 then 0 else |list[i].rx|
  }

  /** The verdict on a bind request, as a table of reasons. */
  ghost function Verdict(list: seq<BoundAccount>, clients: seq<Client>, q: Request): int {
    if q.mode < 1 || q.mode > 4 then -1
    else
      match FindClient(clients, q.name)
      case None => 1
      case Some(c) =>
        if q.password.Some? && q.password.value != c.password then 2
        else if (c.mode < 4 && q.mode != c.mode) || (q.mode == 3 && c.mode == 4) then 3
        else if q.date.ValidLater? then 4
        else if q.date.NotValid? then 5
        else if q.mode != 2 && q.mode != 4 && TxCount(list, q.name) == c.maxTx then 10
        else if q.mode == 2 && RxCount(list, q.name) == c.maxRx then 10
        else 0
  }

  /** An account with the new session: TX and TRX go to one list, RX to the other, mode 4 to neither. */
  ghost function Joined(a: BoundAccount, mode: int): BoundAccount {
    if mode == 1 || mode == 3 then a.(tx := a.tx + [Session(SessionId(SessionIds(a.tx)), mode)])
    else if mode == 2 then a.(rx := a.rx + [Session(SessionId(SessionIds(a.rx)), 2)])
    else a
  }

  ghost function Bound(list: seq<BoundAccount>, q: Request): seq<BoundAccount> {
    var i := Present(list, q.name);
    if i < 0 then list + [Joined(BoundAccount(q.name, [], []), q.mode)] else list[i := Joined(list[i], q.mode)]
  }

  ghost function WithoutSession(s: seq<Session>, id: int): seq<Session> {
    if s == [] then [] else if s[0].id == id then s[1..] else [s[0]] + WithoutSession(s[1..], id)
  }

  ghost function Left(a: BoundAccount, thread: int, id: int): BoundAccount {
    if thread == 1 && id > 0 then a.(tx := WithoutSession(a.tx, id))
    else if thread == 2 && id > 0 then a.(rx := WithoutSession(a.rx, id))
    else a
  }

  /** The session is gone; an account without sessions goes too. */
  ghost function Destroyed(list: seq<BoundAccount>, name: string, thread: int, id: int): seq<BoundAccount> {
    var i := Present(list, name);
    if i < 0 then list
    else
      var a := Left(list[i], thread, id);
      if a.tx == [] && a.rx == [] then list[..i] + list[i + 1..] else list[i := a]
  }

  // ---------------------------------------------------------------------------
  // What every run keeps
  // ---------------------------------------------------------------------------

  /** Session ids are positive and differ. */
  ghost predicate GoodSessions(s: seq<Session>) {
    && (forall i :: 0 <= i < |s| ==> s[i].id >= 1)
    && (forall i, j :: 0 <= i < j < |s| ==> s[i].id != s[j].id)
  }

  ghost predicate WithinCaps(a: BoundAccount, clients: seq<Client>) {
    var c := FindClient(clients, a.name);
    c.Some? && (c.value.maxTx >= 0 ==> |a.tx| <= c.value.maxTx) && (c.value.maxRx >= 0 ==> |a.rx| <= c.value.maxRx)
  }

  ghost predicate GoodAccount(a: BoundAccount, clients: seq<Client>) {
    GoodSessions(a.tx) && GoodSessions(a.rx) && WithinCaps(a, clients)
  }

  ghost predicate HasSession(a: BoundAccount) { a.tx != [] || a.rx != [] }

  ghost predicate Inv(list: seq<BoundAccount>, clients: seq<Client>) {
    && (forall i, j :: 0 <= i < j < |list| ==> list[i].name != list[j].name)
    && (forall i :: 0 <= i < |list| ==> GoodAccount(list[i], clients) && HasSession(list[i]))
  }

  lemma GoodAppend(s: seq<Session>, mode: int)
    requires GoodSessions(s)
    ensures GoodSessions(s + [Session(SessionId(SessionIds(s)), mode)])
  {
    var id := SessionId(SessionIds(s));
    forall i | 0 <= i < |s|
      ensures s[i].id != id
    {
      assert SessionIds(s)[i] in SessionIds(s);
    }
  }

  /** Removing an entry of a good list. */
  lemma GoodCut(s: seq<Session>, i: nat)
    requires GoodSessions(s) && i < |s|
    ensures GoodSessions(s[..i] + s[i + 1..])
  {
    var t := s[..i] + s[i + 1..];
    assert forall j :: 0 <= j < |t| ==> t[j] == s[if j < i then j else j + 1];
  }

  /** Either nothing has the id, or exactly one entry goes. */
  lemma {:induction false} WithoutIs(s: seq<Session>, id: int) returns (i: nat)
    ensures i <= |s| && forall j :: 0 <= j < i ==> s[j].id != id
    ensures i < |s| ==> s[i].id == id && WithoutSession(s, id) == s[..i] + s[i + 1..]
    ensures i == |s| ==> WithoutSession(s, id) == s
  {
    if s == [] || s[0].id == id {
      i := 0;
    } else {
      var k := WithoutIs(s[1..], id);
      i := k + 1;
      assert forall j :: 1 <= j < |s| ==> s[j] == s[1..][j - 1];
      CutCons(s, k);
    }
  }

  lemma CutCons(s: seq<Session>, k: nat)
    requires k < |s|
    ensures k < |s[1..]| ==> [s[0]] + (s[1..][..k] + s[1..][k + 1..]) == s[..k + 1] + s[k + 2..]
    ensures [s[0]] + s[1..] == s
  {
  }

  /** Destroying a session keeps the others and their ids distinct, and the id is free again. */
  lemma GoodRemove(s: seq<Session>, id: int)
    requires GoodSessions(s)
    ensures GoodSessions(WithoutSession(s, id)) && |WithoutSession(s, id)| <= |s|
    ensures forall x :: x in WithoutSession(s, id) <==> x in s && x.id != id
  {
    var i := WithoutIs(s, id);
    if i < |s| {
      GoodCut(s, i);
    }
  }

  lemma JoinedGood(a: BoundAccount, clients: seq<Client>, q: Request, list: seq<BoundAccount>)
    requires GoodSessions(a.tx) && GoodSessions(a.rx) && a.name == q.name
    requires Verdict(list, clients, q) == 0 && TxCount(list, q.name) == |a.tx| && RxCount(list, q.name) == |a.rx|
    requires (a.tx == [] && a.rx == []) || WithinCaps(a, clients)
    ensures GoodAccount(Joined(a, q.mode), clients)
  {
    GoodAppend(a.tx, q.mode);
    GoodAppend(a.rx, 2);
  }

  /** A successful bind by a caller of mode 1, 2 or 3 keeps everything. */
  lemma BindKeeps(list: seq<BoundAccount>, clients: seq<Client>, q: Request)
    requires Inv(list, clients) && Verdict(list, clients, q) == 0 && q.mode != 4
    ensures Inv(Bound(list, q), clients)
  {
    var i := Present(list, q.name);
    var a := if i < 0 then BoundAccount(q.name, [], []) else list[i];
    JoinedGood(a, clients, q, list);
    var t := Bound(list, q);
    assert forall j :: 0 <= j < |t| && j != (if i < 0 then |list| else i) ==> t[j] == list[j];
  }

  /** With mode 4 the bind succeeds without creating a session: every account still has one exactly when
      the account was there before. */
  lemma ModeFourIff(list: seq<BoundAccount>, clients: seq<Client>, q: Request)
    requires Inv(list, clients) && Verdict(list, clients, q) == 0 && q.mode == 4
    ensures (forall i :: 0 <= i < |Bound(list, q)| ==> HasSession(Bound(list, q)[i])) <==> Present(list, q.name) >= 0
  {
    var i := Present(list, q.name);
    var t := Bound(list, q);
    if i < 0 {
      assert !HasSession(t[|list|]);
    } else {
      assert t == list;
    }
  }

  lemma ModeFourExample()
    ensures var c := Client("acme", "pw", 4, -1, -1);
            var q := Request("acme", Some("pw"), 4, Valid);
            Verdict([], [c], q) == 0 && Bound([], q) == [BoundAccount("acme", [], [])]
  {
  }

  lemma ReplaceKeeps(list: seq<BoundAccount>, clients: seq<Client>, i: nat, a: BoundAccount)
    requires Inv(list, clients) && i < |list| && a.name == list[i].name
    requires GoodAccount(a, clients) && HasSession(a)
    ensures Inv(list[i := a], clients)
  {
    hide GoodAccount, HasSession;
  }

  lemma DeleteKeeps(list: seq<BoundAccount>, clients: seq<Client>, i: nat)
    requires Inv(list, clients) && i < |list|
    ensures Inv(list[..i] + list[i + 1..], clients)
  {
    hide GoodAccount, HasSession;
    var t := list[..i] + list[i + 1..];
    assert forall j :: 0 <= j < |t| ==> t[j] == list[if j < i then j else j + 1];
  }

  lemma DestroyKeeps(list: seq<BoundAccount>, clients: seq<Client>, name: string, thread: int, id: int)
    requires Inv(list, clients)
    ensures Inv(Destroyed(list, name, thread, id), clients)
  {
    var i := Present(list, name);
    if i >= 0 {
      GoodRemove(list[i].tx, id);
      GoodRemove(list[i].rx, id);
      var a := Left(list[i], thread, id);
      if HasSession(a) {
        ReplaceKeeps(list, clients, i, a);
      } else {
        DeleteKeeps(list, clients, i);
      }
    }
  }

  // ---------------------------------------------------------------------------
  // What the verdict and the two changes mean, field by field
  // ---------------------------------------------------------------------------

  /** k is the position of the first client of that name, or the length of the list. */
  ghost predicate FirstClient(clients: seq<Client>, name: string, k: nat) {
    k <= |clients| && (k < |clients| ==> clients[k].name == name) && forall j :: 0 <= j < k ==> clients[j].name != name
  }

  /** p is the position of the first account of that name, or the length of the list. */
  ghost predicate FirstAccount(list: seq<BoundAccount>, name: string, p: nat) {
    p <= |list| && (p < |list| ==> list[p].name == name) && forall j :: 0 <= j < p ==> list[j].name != name
  }

  lemma {:induction false} FindsFirst(clients: seq<Client>, name: string, k: nat)
    requires FirstClient(clients, name, k)
    ensures FindClient(clients, name) == if k < |clients| then Some(clients[k]) else None
  {
    if k > 0 {
      assert forall j :: 0 <= j < |clients| - 1 ==> clients[1..][j] == clients[j + 1];
      FindsFirst(clients[1..], name, k - 1);
    }
  }

  lemma PresentIs(list: seq<BoundAccount>, name: string, p: nat)
    requires FirstAccount(list, name, p)
    ensures Present(list, name) == if p < |list| then p else -1
  {
    if p < |list| {
      PresentFirst(list, name, p);
    }
  }

  ghost predicate PasswordOk(c: Client, q: Request) { q.password.None? || q.password.value == c.password }

  /** A client of mode 1, 2 or 3 binds in that mode only; one of mode 4 not as a transceiver. */
  ghost predicate ModeAllowed(c: Client, q: Request) {
    (c.mode < 4 ==> q.mode == c.mode) && !(c.mode == 4 && q.mode == 3)
  }

  ghost predicate DateOk(q: Request) { q.date != ValidLater && q.date != NotValid }

  /** The session list that the bind would join is at its cap. */
  ghost predicate AtCap(a: BoundAccount, c: Client, mode: int) {
    ((mode == 1 || mode == 3) && |a.tx| == c.maxTx) || (mode == 2 && |a.rx| == c.maxRx)
  }

  ghost function AccountAt(list: seq<BoundAccount>, name: string, p: nat): BoundAccount
    requires p <= |list|
  {
    if p < |list| then list[p] else BoundAccount(name, [], [])
  }

  /** Exactly when a bind is accepted, and exactly when each reason for refusing it is given. */
  lemma VerdictIff(list: seq<BoundAccount>, clients: seq<Client>, q: Request, k: nat, p: nat)
    requires FirstClient(clients, q.name, k) && FirstAccount(list, q.name, p)
    ensures var v := Verdict(list, clients, q);
            var mode := 1 <= q.mode <= 4;
            && (v == -1 <==> !mode)
            && (v == 1 <==> mode && k == |clients|)
            && (k == |clients| ==> v == -1 || v == 1)
            && (k < |clients| ==>
                var c, a := clients[k], AccountAt(list, q.name, p);
                && (v == 2 <==> mode && !PasswordOk(c, q))
                && (v == 3 <==> mode && PasswordOk(c, q) && !ModeAllowed(c, q))
                && (v == 4 <==> mode && PasswordOk(c, q) && ModeAllowed(c, q) && q.date == ValidLater)
                && (v == 5 <==> mode && PasswordOk(c, q) && ModeAllowed(c, q) && q.date == NotValid)
                && (v == 10 <==> mode && PasswordOk(c, q) && ModeAllowed(c, q) && DateOk(q) && AtCap(a, c, q.mode))
                && (v == 0 <==> mode && PasswordOk(c, q) && ModeAllowed(c, q) && DateOk(q) && !AtCap(a, c, q.mode)))
  {
    FindsFirst(clients, q.name, k);
    PresentIs(list, q.name, p);
  }

  /** s is the old list with one session behind it, of that mode and with the least id not in use. */
  ghost predicate Added(s: seq<Session>, before: seq<Session>, mode: int) {
    && |s| == |before| + 1 && s[..|before|] == before
    && s[|before|].mode == mode && LeastFree(SessionIds(before), s[|before|].id)
  }

  /** An accepted bind adds one session to one account, which is new if there was none of that name, and touches
      nothing else. */
  lemma BindAdds(list: seq<BoundAccount>, q: Request, p: nat)
    requires FirstAccount(list, q.name, p)
    ensures var t, a := Bound(list, q), AccountAt(list, q.name, p);
            && |t| == (if p < |list| then |list| else |list| + 1)
            && (forall j :: 0 <= j < |list| && j != p ==> t[j] == list[j])
            && t[p].name == q.name
            && (if q.mode == 1 || q.mode == 3 then Added(t[p].tx, a.tx, q.mode) else t[p].tx == a.tx)
            && (if q.mode == 2 then Added(t[p].rx, a.rx, 2) else t[p].rx == a.rx)
  {
    PresentIs(list, q.name, p);
  }

  /** s is the old list without the session of that id. */
  ghost predicate Taken(s: seq<Session>, before: seq<Session>, id: int) {
    exists i :: 0 <= i < |before| && before[i].id == id && s == before[..i] + before[i + 1..]
  }

  /** A destroyed session leaves its list; an account left without sessions leaves too; nothing else changes. */
  lemma DestroyTakes(list: seq<BoundAccount>, name: string, thread: int, id: int, p: nat)
    requires FirstAccount(list, name, p) && p < |list| && id > 0 && (thread == 1 || thread == 2)
    requires exists x :: x in (if thread == 1 then list[p].tx else list[p].rx) && x.id == id
    ensures var t := Destroyed(list, name, thread, id);
            exists a: BoundAccount ::
              && a.name == name
              && (if thread == 1 then Taken(a.tx, list[p].tx, id) && a.rx == list[p].rx
                  else Taken(a.rx, list[p].rx, id) && a.tx == list[p].tx)
              && t == if a.tx == [] && a.rx == [] then list[..p] + list[p + 1..] else list[p := a]
  {
    PresentIs(list, name, p);
    var s := if thread == 1 then list[p].tx else list[p].rx;
    var i := WithoutIs(s, id);
    assert i < |s|;
    var a := Left(list[p], thread, id);
    assert Taken(WithoutSession(s, id), s, id);
  }

  datatype Event = Bind(request: Request) | Destroy(name: string, thread: int, id: int)

  ghost function After(list: seq<BoundAccount>, clients: seq<Client>, e: Event): seq<BoundAccount> {
    match e
    case Bind(q) => if Verdict(list, clients, q) == 0 then Bound(list, q) else list
    case Destroy(name, thread, id) => Destroyed(list, name, thread, id)
  }

  ghost function Run(list: seq<BoundAccount>, clients: seq<Client>, events: seq<Event>): seq<BoundAccount> {
    if events == [] then list else After(Run(list, clients, events[..|events| - 1]), clients, events[|events| - 1])
  }

  /** Over every run of binds (the callers pass modes 1 to 3) and destroys: account names are unique, session
      ids are unique and positive in each list, every account has a session, and no cap is exceeded. */
  lemma {:induction false} RunKeeps(clients: seq<Client>, events: seq<Event>)
    requires forall i :: 0 <= i < |events| && events[i].Bind? ==> 1 <= events[i].request.mode <= 3
    ensures Inv(Run([], clients, events), clients)
  {
    if events != [] {
      var n := |events| - 1;
      RunKeeps(clients, events[..n]);
      var list := Run([], clients, events[..n]);
      match events[n]
      case Bind(q) =>
        if Verdict(list, clients, q) == 0 {
          BindKeeps(list, clients, q);
        }
      case Destroy(name, thread, id) => DestroyKeeps(list, clients, name, thread, id);
    }
  }

  // ---------------------------------------------------------------------------
  // The operations
  // ---------------------------------------------------------------------------

  /** smpp_client_find_username. */
  method FindUsername(clients: seq<Client>, name: string) returns (r: Option<Client>)
    ensures r == FindClient(clients, name)
  {
    for i := 0 to |clients|
      invariant FindClient(clients, name) == FindClient(clients[i..], name)
    {
      if clients[i].name == name {
        return Some(clients[i]);
      }
    }
    r := None;
  }

  lemma {:induction false} PresentFirst(list: seq<BoundAccount>, name: string, i: nat)
    requires i < |list| && list[i].name == name
    requires forall j :: 0 <= j < i ==> list[j].name != name
    ensures Present(list, name) == i
  {
    if i > 0 {
      assert list[1..][i - 1] == list[i];
      assert forall j :: 0 <= j < i - 1 ==> list[1..][j] == list[j + 1];
      PresentFirst(list[1..], name, i - 1);
    }
  }

  /** The loop of esme_destroy over one session list. The source reads the session it found, so there must be one. */
  method DeleteSession(s: seq<Session>, id: int) returns (r: seq<Session>)
    requires exists x :: x in s && x.id == id
    ensures r == WithoutSession(s, id)
  {
    for i := 0 to |s|
      invariant forall j :: 0 <= j < i ==> s[j].id != id
    {
      if s[i].id == id {
        ghost var k := WithoutIs(s, id);
        return s[..i] + s[i + 1..];
      }
    }
    assert false;
  }

  class Registry {
    var esmeList: seq<BoundAccount>

    /** is_present_esme. */
    method IsPresentEsme(name: string) returns (r: int)
      ensures r == Present(esmeList, name)
    {
      for i := 0 to |esmeList|
        invariant forall j :: 0 <= j < i ==> esmeList[j].name != name
      {
        if esmeList[i].name == name {
          PresentFirst(esmeList, name, i);
          return i;
        }
      }
      r := -1;
    }

    /** authorise_user: the reason for refusing, or 0 and the session added. */
    method AuthoriseUser(clients: seq<Client>, q: Request) returns (code: int)
      requires Inv(esmeList, clients)
      modifies this
      ensures code == Verdict(old(esmeList), clients, q)
      ensures esmeList == if code == 0 then Bound(old(esmeList), q) else old(esmeList)
      ensures q.mode != 4 ==> Inv(esmeList, clients)
    {
      if q.mode > 4 || q.mode < 1 {
        return -1;
      }
      var t := FindUsername(clients, q.name);
      if t.None? {
        return 1;
      }
      var client := t.value;
      if q.password.Some? {
        if q.password.value != client.password {
          return 2;
        }
      }
      if client.mode < 4 && q.mode != client.mode {
        return 3;
      }
      if q.mode == 3 && client.mode == 4 {
        return 3;
      }
      if q.date.ValidLater? {
        return 4;
      } else if q.date.NotValid? {
        return 5;
      }
      var present := IsPresentEsme(q.name);
      if q.mode == 1 || q.mode == 3 {
        if present < 0 && client.maxTx == 0 {
          return 10;
        } else if present >= 0 && |esmeList[present].tx| == client.maxTx {
          return 10;
        }
      }
      if q.mode == 2 {
        if present < 0 && client.maxRx == 0 {
          return 10;
        } else if present >= 0 && |esmeList[present].rx| == client.maxRx {
          return 10;
        }
      }
      ghost var before := esmeList;
      assert Verdict(before, clients, q) == 0;
      if q.mode != 4 {
        BindKeeps(before, clients, q);
      }
      AddSession(q, present);
      code := 0;
    }

    /** The half of authorise_user that changes the list. */
    method AddSession(q: Request, present: int)
      requires present == Present(esmeList, q.name) && 1 <= q.mode <= 4
      requires forall i :: 0 <= i < |esmeList| ==> GoodSessions(esmeList[i].tx) && GoodSessions(esmeList[i].rx)
      modifies this
      ensures esmeList == Bound(old(esmeList), q)
    {
      var esme := BoundAccount(q.name, [], []);
      var at := present;
      if present < 0 {
        at := |esmeList|;
        esmeList := esmeList + [esme];
      } else {
        esme := esmeList[present];
      }
      if q.mode == 1 || q.mode == 3 {
        var id := AllocateSessionId(SessionIds(esme.tx));
        LeastFreeUnique(SessionIds(esme.tx), id, SessionId(SessionIds(esme.tx)));
        esmeList := esmeList[at := esme.(tx := esme.tx + [Session(id, q.mode)])];
      } else if q.mode == 2 {
        var id := AllocateSessionId(SessionIds(esme.rx));
        LeastFreeUnique(SessionIds(esme.rx), id, SessionId(SessionIds(esme.rx)));
        esmeList := esmeList[at := esme.(rx := esme.rx + [Session(id, 2)])];
      }
    }

    /** esme_destroy for an account by its system id. */
    method EsmeDestroy(clients: seq<Client>, name: string, thread: int, id: int)
      requires Inv(esmeList, clients)
      requires var i := Present(esmeList, name);
               i >= 0 && id > 0 ==>
                 && (thread == 1 ==> exists x :: x in esmeList[i].tx && x.id == id)
                 && (thread == 2 ==> exists x :: x in esmeList[i].rx && x.id == id)
      modifies this
      ensures esmeList == Destroyed(old(esmeList), name, thread, id)
      ensures Inv(esmeList, clients)
    {
      DestroyKeeps(esmeList, clients, name, thread, id);
      var found := IsPresentEsme(name);
      if found != -1 {
        var esme := esmeList[found];
        if thread == 1 && id > 0 {
          var tx := DeleteSession(esme.tx, id);
          esme := esme.(tx := tx);
        } else if thread == 2 && id > 0 {
          var rx := DeleteSession(esme.rx, id);
          esme := esme.(rx := rx);
        }
        if |esme.tx| == 0 && |esme.rx| == 0 {
          esmeList := esmeList[..found] + esmeList[found + 1..];
        } else {
          esmeList := esmeList[found := esme];
        }
      }
    }
  }
}
