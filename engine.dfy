/** The proxy of sipproxy.py as a function of its state: one datagram in, the new
    `registry`, `calling`, sent datagrams and log out. The class in proxy.dfy
    works step by step and is proved to compute exactly `Handle`. */
module Engine {
  import opened Text
  import opened Headers
  import opened Rewrite

  /** `registry[identity]`: `{socket, contact, client, validity}`. */
  datatype Entry = Entry(socket: Socket, contact: string, client: Address, validity: int)

  datatype CallKind = Started | Accepted | Rejected | Ended | Cancelled

  /** What the proxy logs, without the wording: a registration of a new identity,
      or a call event with its Call-ID and its From and To identities. */
  datatype Event =
    | Registered(identity: string)
    | CallEvent(kind: CallKind, call: Option<string>, caller: Option<string>, callee: Option<string>)

  /** The module state (`registry`, `calling`), everything sent so far and the log.
      `calling` holds what `call_id` returned, which may be `None`. */
  datatype State = State(registry: map<string, Entry>, calling: set<Option<string>>,
                         sent: seq<Datagram>, log: seq<Event>)

  const Ok: string := "200 0K"
  const CallerUnknown: string := "400 Volajuci nie je registrovany"
  const InviteServerError: string := "500 Intern\U{E1} chyba servera"
  const OtherServerError: string := "500 Interna chyba servera"
  const CalleeUnavailable: string := "480 Volany je docasne nedostupny"
  const NotAcceptable: string := "406 Neprijatelne"
  const Busy: string := "SIP/2.0 486 Obsadene"
  const Trying: string := "SIP/2.0 100 Volame"

  // ---------------------------------------------------------------------------
  // `expired`

  /** `expired(target)`: whether the entry has lapsed, and the registry without it
      when it has. */
  function Expire(reg: map<string, Entry>, target: string, now: int): (bool, map<string, Entry>)
    requires target in reg
  {
    if reg[target].validity <= now then (true, reg - {target}) else (false, reg)
  }

  /** Expiry removes exactly the lapsed entry and nothing else. */
  lemma ExpireRemovesOnlyTarget(reg: map<string, Entry>, target: string, now: int)
    requires target in reg
    ensures var (gone, reg') := Expire(reg, target, now);
            && (gone <==> reg[target].validity <= now)
            && reg'.Keys == (if gone then reg.Keys - {target} else reg.Keys)
            && forall k :: k in reg' ==> reg'[k] == reg[k]
  {
  }

  // ---------------------------------------------------------------------------
  // `sip_register`

  /** The three locals `sip_register` may bind; `None` stands for unbound. */
  datatype Fields = Fields(source: Option<string>, contact: Option<string>, expires: Option<int>)

  const Unbound: Fields := Fields(None, None, None)

  /** The expiry text a line offers: none for a To line, the `expires=` parameter
      of a Contact line, else the value of an Expires header. */
  function ExpiresIn(h: string): Option<string>
  {
    if IsTo(h) then None
    else if IsContact(h) then ExpiresParam(h)
    else HeaderValue(h, "Expires")
  }

  /** One iteration of the `sip_register` loop. `None` when `int()` raises. */
  function Absorb(f: Fields, h: string): Option<Fields>
  {
    var f1 :=
      if IsTo(h) then
        (match SipUri(h) case Some(u) => f.(source := Some(Identity(u))) case None => f)
      else if IsContact(h) then
        (match SipUri(h) case Some(u) => f.(contact := Some(u.host)) case None => f)
      else f;
    match ExpiresIn(h)
    case None => Some(f1)
    case Some(t) =>
      match ParseInt(t)
      case None => None
      case Some(n) => Some(f1.(expires := Some(n)))
  }

  /** The whole `sip_register` loop, from the first line on. */
  function Scan(hs: seq<string>, f: Fields): Option<Fields>
    decreases |hs|
  {
    if |hs| == 0 then Some(f)
    else
      match Absorb(f, hs[0])
      case None => None
      case Some(g) => Scan(hs[1..], g)
  }

  lemma {:induction false} ScanAppend(a: seq<string>, b: seq<string>, f: Fields)
    ensures Scan(a + b, f) == match Scan(a, f) case None => None case Some(g) => Scan(b, g)
    decreases |a|
  {
    if |a| > 0 {
      assert (a + b)[0] == a[0];
      assert (a + b)[1..] == a[1..] + b;
      match Absorb(f, a[0])
      case None =>
      case Some(g) => ScanAppend(a[1..], b, g);
    } else {
      assert a + b == b;
    }
  }

  /** Lines offering no expiry leave the expiry found so far alone. */
  lemma {:induction false} ScanKeepsExpires(b: seq<string>, g: Fields)
    requires forall k :: 0 <= k < |b| ==> ExpiresIn(b[k]).None?
    requires Scan(b, g).Some?
    ensures Scan(b, g).value.expires == g.expires
    decreases |b|
  {
    if |b| > 0 {
      var g1 := Absorb(g, b[0]).value;
      assert g1.expires == g.expires;
      ScanKeepsExpires(b[1..], g1);
    }
  }

  /** A later Expires header or Contact `expires=` parameter overrides every earlier one. */
  lemma LaterExpiresWins(a: seq<string>, h: string, b: seq<string>, t: string, n: int)
    requires ExpiresIn(h) == Some(t) && ParseInt(t) == Some(n)
    requires forall k :: 0 <= k < |b| ==> ExpiresIn(b[k]).None?
    requires Scan(a + [h] + b, Unbound).Some?
    ensures Scan(a + [h] + b, Unbound).value.expires == Some(n)
  {
    ScanAppend(a + [h], b, Unbound);
    ScanAppend(a, [h], Unbound);
    var g := Scan(a, Unbound).value;
    assert [h][1..] == [];
    var g1 := Absorb(g, h).value;
    assert g1.expires == Some(n);
    ScanKeepsExpires(b, g1);
  }

  /** What `sip_register` does: raise (an unbound local or a failed `int()`), remove
      an identity, or store an entry under it. */
  datatype Registration = Failed | Removed(id: string) | Stored(id: string, entry: Entry)

  function Register(hs: seq<string>, socket: Socket, client: Address, now: int): Registration
  {
    match Scan(hs, Unbound)
    case None => Failed
    case Some(f) =>
      if f.expires.None? then Failed
      else if f.expires.value == 0 then
        (if f.source.Some? then Removed(f.source.value) else Failed)
      else if f.source.None? || f.contact.None? then Failed
      else Stored(f.source.value, Entry(socket, f.contact.value, client, now + f.expires.value))
  }

  /** The registration outcome applied to the state; a new identity is logged. */
  function Enroll(s: State, r: Registration): State
  {
    match r
    case Failed => s
    case Removed(id) => s.(registry := s.registry - {id})
    case Stored(id, e) =>
      s.(registry := s.registry[id := e],
         log := if id in s.registry then s.log else s.log + [Registered(id)])
  }

  // What the loop leaves in its locals, read off the lines.

  /** The expiry text of the line is there but does not parse: `int()` raises. */
  predicate Raises(h: string)
  {
    ExpiresIn(h).Some? && ParseInt(ExpiresIn(h).value).None?
  }

  /** No line's expiry text makes `int()` raise. */
  predicate Parses(hs: seq<string>)
  {
    forall j :: 0 <= j < |hs| ==> !Raises(hs[j])
  }

  /** The host a line sets `contact` to: a Contact line (that is no To line) holding a
      SIP URI. */
  function ContactHostOf(h: string): Option<string>
  {
    if !IsTo(h) && IsContact(h) then
      (match SipUri(h) case Some(u) => Some(u.host) case None => None)
    else None
  }

  /** Line `k` is the last To line holding a SIP URI. */
  predicate LastTo(hs: seq<string>, k: nat)
  {
    k < |hs| && ClientIn(hs[k], "To").Some? && forall j :: k < j < |hs| ==> ClientIn(hs[j], "To").None?
  }

  /** Line `l` is the last Contact line holding a SIP URI. */
  predicate LastContact(hs: seq<string>, l: nat)
  {
    l < |hs| && ContactHostOf(hs[l]).Some? && forall j :: l < j < |hs| ==> ContactHostOf(hs[j]).None?
  }

  /** Line `m` is the last line offering an expiry, and its text reads as `n`. */
  predicate LastExpiry(hs: seq<string>, m: nat, n: int)
  {
    m < |hs| && ExpiresIn(hs[m]).Some? && ParseInt(ExpiresIn(hs[m]).value) == Some(n)
    && forall j :: m < j < |hs| ==> ExpiresIn(hs[j]).None?
  }

  /** One iteration raises exactly on a line whose expiry does not parse, and
      otherwise rebinds each local the line offers and keeps the others. */
  lemma AbsorbStep(f: Fields, h: string)
    ensures Absorb(f, h).None? <==> Raises(h)
    ensures Absorb(f, h).Some? ==>
              && Absorb(f, h).value.source == (if ClientIn(h, "To").Some? then ClientIn(h, "To") else f.source)
              && Absorb(f, h).value.contact == (if ContactHostOf(h).Some? then ContactHostOf(h) else f.contact)
              && Absorb(f, h).value.expires == (if ExpiresIn(h).Some? then ParseInt(ExpiresIn(h).value) else f.expires)
  {
  }

  /** The loop raises exactly when some line's expiry text does not parse. */
  lemma {:induction false} ScanFails(hs: seq<string>, f: Fields)
    ensures Scan(hs, f).None? <==> !Parses(hs)
    decreases |hs|
  {
    if |hs| > 0 {
      AbsorbStep(f, hs[0]);
      var tail := hs[1..];
      assert forall j :: 0 <= j < |tail| ==> tail[j] == hs[j + 1];
      if Absorb(f, hs[0]).Some? {
        ScanFails(tail, Absorb(f, hs[0]).value);
        if !Parses(tail) {
          var j :| 0 <= j < |tail| && Raises(tail[j]);
          assert Raises(hs[j + 1]);
        }
        if !Parses(hs) {
          var j :| 0 <= j < |hs| && Raises(hs[j]);
          assert j > 0 && Raises(tail[j - 1]);
        }
      }
    }
  }

  /** Lines without a To URI leave `source` as it was. */
  lemma {:induction false} ScanKeepsSource(hs: seq<string>, f: Fields)
    requires forall j :: 0 <= j < |hs| ==> ClientIn(hs[j], "To").None?
    requires Scan(hs, f).Some?
    ensures Scan(hs, f).value.source == f.source
    decreases |hs|
  {
    if |hs| > 0 {
      AbsorbStep(f, hs[0]);
      var tail := hs[1..];
      assert forall j :: 0 <= j < |tail| ==> tail[j] == hs[j + 1];
      ScanKeepsSource(tail, Absorb(f, hs[0]).value);
    }
  }

  /** `source` ends bound to the identity of the last To line holding a URI. */
  lemma {:induction false} ScanSourceIsLastTo(hs: seq<string>, f: Fields, k: nat)
    requires LastTo(hs, k) && Scan(hs, f).Some?
    ensures Scan(hs, f).value.source == ClientIn(hs[k], "To")
    decreases |hs|
  {
    AbsorbStep(f, hs[0]);
    var g := Absorb(f, hs[0]).value;
    var tail := hs[1..];
    assert forall j :: 0 <= j < |tail| ==> tail[j] == hs[j + 1];
    if k == 0 {
      ScanKeepsSource(tail, g);
    } else {
      ScanSourceIsLastTo(tail, g, k - 1);
    }
  }

  /** Lines without a Contact URI leave `contact` as it was. */
  lemma {:induction false} ScanKeepsContact(hs: seq<string>, f: Fields)
    requires forall j :: 0 <= j < |hs| ==> ContactHostOf(hs[j]).None?
    requires Scan(hs, f).Some?
    ensures Scan(hs, f).value.contact == f.contact
    decreases |hs|
  {
    if |hs| > 0 {
      AbsorbStep(f, hs[0]);
      var tail := hs[1..];
      assert forall j :: 0 <= j < |tail| ==> tail[j] == hs[j + 1];
      ScanKeepsContact(tail, Absorb(f, hs[0]).value);
    }
  }

  /** `contact` ends bound to the host of the last Contact line holding a URI. */
  lemma {:induction false} ScanContactIsLast(hs: seq<string>, f: Fields, l: nat)
    requires LastContact(hs, l) && Scan(hs, f).Some?
    ensures Scan(hs, f).value.contact == ContactHostOf(hs[l])
    decreases |hs|
  {
    AbsorbStep(f, hs[0]);
    var g := Absorb(f, hs[0]).value;
    var tail := hs[1..];
    assert forall j :: 0 <= j < |tail| ==> tail[j] == hs[j + 1];
    if l == 0 {
      ScanKeepsContact(tail, g);
    } else {
      ScanContactIsLast(tail, g, l - 1);
    }
  }

  /** `expires` ends bound to the value of the last line offering one. */
  lemma {:induction false} ScanExpiresIsLast(hs: seq<string>, f: Fields, m: nat, n: int)
    requires LastExpiry(hs, m, n) && Scan(hs, f).Some?
    ensures Scan(hs, f).value.expires == Some(n)
    decreases |hs|
  {
    var tail := hs[1..];
    assert Absorb(f, hs[0]).Some? && Scan(hs, f) == Scan(tail, Absorb(f, hs[0]).value);
    var g := Absorb(f, hs[0]).value;
    if m == 0 {
      assert g.expires == Some(n) by { AbsorbStep(f, hs[0]); }
      assert forall j :: 0 <= j < |tail| ==> ExpiresIn(tail[j]).None? by {
        assert forall j :: 0 <= j < |tail| ==> tail[j] == hs[j + 1];
      }
      ScanKeepsExpires(tail, g);
    } else {
      assert LastExpiry(tail, m - 1, n) by {
        assert forall j :: 0 <= j < |tail| ==> tail[j] == hs[j + 1];
      }
      ScanExpiresIsLast(tail, g, m - 1, n);
    }
  }

  /** An expiry of 0 removes the identity of the last To line holding a URI. */
  lemma RegisterRemoves(hs: seq<string>, socket: Socket, client: Address, now: int, k: nat, m: nat)
    requires Parses(hs) && LastTo(hs, k) && LastExpiry(hs, m, 0)
    ensures Register(hs, socket, client, now) == Removed(ClientIn(hs[k], "To").value)
  {
    assert Scan(hs, Unbound).Some? by { ScanFails(hs, Unbound); }
    var f := Scan(hs, Unbound).value;
    assert f.source == ClientIn(hs[k], "To") by { ScanSourceIsLastTo(hs, Unbound, k); }
    assert f.expires == Some(0) by { ScanExpiresIsLast(hs, Unbound, m, 0); }
  }

  /** Any other expiry `n` stores, under the last To identity, the socket, the host of
      the last Contact line holding a URI, the client and `now + n`. */
  lemma RegisterStores(hs: seq<string>, socket: Socket, client: Address, now: int, k: nat, l: nat, m: nat, n: int)
    requires Parses(hs) && LastTo(hs, k) && LastContact(hs, l) && LastExpiry(hs, m, n) && n != 0
    ensures Register(hs, socket, client, now)
            == Stored(ClientIn(hs[k], "To").value, Entry(socket, ContactHostOf(hs[l]).value, client, now + n))
  {
    var id := ClientIn(hs[k], "To").value;
    var host := ContactHostOf(hs[l]).value;
    assert Scan(hs, Unbound) == Some(Fields(Some(id), Some(host), Some(n))) by {
      ScanFails(hs, Unbound);
      ScanSourceIsLastTo(hs, Unbound, k);
      ScanContactIsLast(hs, Unbound, l);
      ScanExpiresIsLast(hs, Unbound, m, n);
    }
    StoredOfScan(hs, socket, client, now, id, host, n);
  }

  lemma StoredOfScan(hs: seq<string>, socket: Socket, client: Address, now: int, id: string, host: string, n: int)
    requires Scan(hs, Unbound) == Some(Fields(Some(id), Some(host), Some(n))) && n != 0
    ensures Register(hs, socket, client, now) == Stored(id, Entry(socket, host, client, now + n))
  {
  }

  /** `sip_register` raises when some expiry does not parse. */
  lemma RegisterFailsOnParse(hs: seq<string>, socket: Socket, client: Address, now: int)
    requires !Parses(hs)
    ensures Register(hs, socket, client, now).Failed?
  {
    ScanFails(hs, Unbound);
  }

  /** `sip_register` raises when no line offers an expiry: `expires` is unbound. */
  lemma RegisterNeedsExpiry(hs: seq<string>, socket: Socket, client: Address, now: int)
    requires forall j :: 0 <= j < |hs| ==> ExpiresIn(hs[j]).None?
    ensures Register(hs, socket, client, now).Failed?
  {
    if Scan(hs, Unbound).Some? {
      ScanKeepsExpires(hs, Unbound);
    }
  }

  /** `sip_register` raises when no To line holds a URI: `source` is unbound. */
  lemma RegisterNeedsSource(hs: seq<string>, socket: Socket, client: Address, now: int)
    requires forall j :: 0 <= j < |hs| ==> ClientIn(hs[j], "To").None?
    ensures Register(hs, socket, client, now).Failed?
  {
    if Scan(hs, Unbound).Some? {
      ScanKeepsSource(hs, Unbound);
    }
  }

  /** With a non-zero expiry and no Contact line holding a URI, `sip_register` raises. */
  lemma RegisterNeedsContact(hs: seq<string>, socket: Socket, client: Address, now: int, m: nat, n: int)
    requires LastExpiry(hs, m, n) && n != 0
    requires forall j :: 0 <= j < |hs| ==> ContactHostOf(hs[j]).None?
    ensures Register(hs, socket, client, now).Failed?
  {
    if Scan(hs, Unbound).Some? {
      ScanExpiresIsLast(hs, Unbound, m, n);
      ScanKeepsContact(hs, Unbound);
    }
  }

  /** Removal drops exactly the identity; a store replaces exactly its entry and
      logs the identity iff it was not registered before. */
  lemma EnrollEffect(s: State, r: Registration)
    requires !r.Failed?
    ensures var s' := Enroll(s, r);
            && s'.calling == s.calling && s'.sent == s.sent
            && (forall k :: k != r.id ==> (k in s'.registry <==> k in s.registry))
            && (forall k :: k != r.id && k in s.registry ==> s'.registry[k] == s.registry[k])
            && (r.Removed? ==> r.id !in s'.registry && s'.log == s.log)
            && (r.Stored? ==> r.id in s'.registry && s'.registry[r.id] == r.entry)
            && (r.Stored? ==> (s'.log == s.log + [Registered(r.id)] <==> r.id !in s.registry))
            && (r.Stored? && r.id in s.registry ==> s'.log == s.log)
  {
    if r.Stored? {
      if r.id !in s.registry {
        assert Enroll(s, r).log == s.log + [Registered(r.id)];
      } else {
        assert Enroll(s, r).log == s.log;
        assert s.log != s.log + [Registered(r.id)] by {
          assert |s.log + [Registered(r.id)]| == |s.log| + 1;
        }
      }
    }
  }

  // ---------------------------------------------------------------------------
  // `response` and `resend` on the state

  /** The state after a call, with the message lines as the call leaves them. */
  datatype Step = Step(state: State, headers: seq<string>)

  /** `response(code)`: the rewritten lines go back to the sender. */
  function Respond(s: State, hs: seq<string>, code: string, socket: Socket, client: Address): Step
    requires |hs| > 0
  {
    var out := ResponseLines(hs, code, client);
    Step(s.(sent := s.sent + [Datagram(out, socket, client)]), out)
  }

  /** `resend(target)`: nothing unless the target is registered; then the relayed
      lines go out through the target's socket to its client address. */
  function Resend(s: State, hs: seq<string>, target: Option<string>, cfg: Config, client: Address): State
  {
    if target.None? || target.value !in s.registry then s
    else
      var e := s.registry[target.value];
      s.(sent := s.sent + [Datagram(Relay(hs, cfg, client), e.socket, e.client)])
  }

  /** `resend` never touches the registry or the calls, and sends one datagram to
      the registered target or nothing. */
  lemma ResendEffect(s: State, hs: seq<string>, target: Option<string>, cfg: Config, client: Address)
    ensures var s' := Resend(s, hs, target, cfg, client);
            && s'.registry == s.registry && s'.calling == s.calling && s'.log == s.log
            && (target.None? || target.value !in s.registry ==> s'.sent == s.sent)
            && (target.Some? && target.value in s.registry ==>
                  s'.sent == s.sent + [Datagram(Relay(hs, cfg, client), s.registry[target.value].socket,
                                                s.registry[target.value].client)])
  {
  }

  // ---------------------------------------------------------------------------
  // `sip_invite` and `sip_other`

  datatype Verdict = UnknownCaller | NoCallee | Unreachable | Forward(callee: string)

  /** The admission tests in their order: the caller must be registered (its expiry
      is not looked at), there must be a callee, and the callee must be registered
      and not lapsed. */
  function Admit(reg: map<string, Entry>, hs: seq<string>, now: int): Verdict
  {
    var source := ClientOf(hs, "From");
    if source.None? || source.value !in reg then UnknownCaller
    else
      var destination := ClientOf(hs, "To");
      if destination.None? then NoCallee
      else if destination.value !in reg || reg[destination.value].validity <= now then Unreachable
      else Forward(destination.value)
  }

  /** The registry after admission: `expired` runs only on a registered callee and
      evicts it when it has lapsed. */
  function Admitted(reg: map<string, Entry>, hs: seq<string>, now: int): map<string, Entry>
  {
    if Admit(reg, hs, now).Unreachable? && ClientOf(hs, "To").value in reg
    then reg - {ClientOf(hs, "To").value}
    else reg
  }

  /** Exactly one outcome, decided in the order 400, 500, 480/406, forward. */
  lemma AdmissionOrder(reg: map<string, Entry>, hs: seq<string>, now: int)
    ensures var a := Admit(reg, hs, now);
            var src := ClientOf(hs, "From");
            var dst := ClientOf(hs, "To");
            var known := src.Some? && src.value in reg;
            && (a.UnknownCaller? <==> !known)
            && (a.NoCallee? <==> known && dst.None?)
            && (a.Unreachable? <==> known && dst.Some? && (dst.value !in reg || reg[dst.value].validity <= now))
            && (a.Forward? <==> known && dst.Some? && dst.value in reg && reg[dst.value].validity > now)
            && (a.Forward? ==> a.callee == dst.value)
  {
  }

  /** A registered caller whose own entry has lapsed is still admitted. */
  lemma CallerExpiryIgnored(reg: map<string, Entry>, hs: seq<string>, now: int, caller: string)
    requires ClientOf(hs, "From") == Some(caller) && caller in reg && reg[caller].validity <= now
    ensures !Admit(reg, hs, now).UnknownCaller?
  {
  }

  /** Admission evicts only a registered callee that has lapsed, and only it. */
  lemma AdmittedEvictsLapsedCallee(reg: map<string, Entry>, hs: seq<string>, now: int)
    ensures var reg' := Admitted(reg, hs, now);
            var dst := ClientOf(hs, "To");
            && (forall k :: k in reg' ==> k in reg && reg'[k] == reg[k])
            && (forall k :: k in reg && k !in reg' ==>
                  dst == Some(k) && reg[k].validity <= now && Admit(reg, hs, now).Unreachable?)
  {
  }

  /** `sip_invite` (`unreachable` 480) and `sip_other` (406) share this shape. */
  function Screen(s: State, hs: seq<string>, socket: Socket, client: Address, cfg: Config, now: int,
                     serverError: string, unreachable: string): Step
    requires |hs| > 0
  {
    var s1 := s.(registry := Admitted(s.registry, hs, now));
    match Admit(s.registry, hs, now)
    case UnknownCaller => Respond(s1, hs, CallerUnknown, socket, client)
    case NoCallee => Respond(s1, hs, serverError, socket, client)
    case Unreachable => Respond(s1, hs, unreachable, socket, client)
    case Forward(d) => Step(Resend(s1, hs, Some(d), cfg, client), hs)
  }

  // The paths through `sip_invite` and `sip_other`, in the source's order.

  /** An unknown caller is answered 400. */
  lemma ScreenUnknownCaller(s: State, hs: seq<string>, socket: Socket, client: Address, cfg: Config, now: int,
                            serverError: string, unreachable: string)
    requires |hs| > 0
    requires ClientOf(hs, "From").None? || ClientOf(hs, "From").value !in s.registry
    ensures Screen(s, hs, socket, client, cfg, now, serverError, unreachable)
            == Respond(s, hs, CallerUnknown, socket, client)
  {
    assert Admit(s.registry, hs, now) == UnknownCaller;
    assert s.(registry := Admitted(s.registry, hs, now)) == s;
  }

  /** A known caller without a callee is answered with the server error. */
  lemma ScreenNoCallee(s: State, hs: seq<string>, socket: Socket, client: Address, cfg: Config, now: int,
                       serverError: string, unreachable: string)
    requires |hs| > 0
    requires ClientOf(hs, "From").Some? && ClientOf(hs, "From").value in s.registry
    requires ClientOf(hs, "To").None?
    ensures Screen(s, hs, socket, client, cfg, now, serverError, unreachable)
            == Respond(s, hs, serverError, socket, client)
  {
    assert Admit(s.registry, hs, now) == NoCallee;
    assert s.(registry := Admitted(s.registry, hs, now)) == s;
  }

  /** An unregistered callee is answered with the unreachable status. */
  lemma ScreenUnregisteredCallee(s: State, hs: seq<string>, socket: Socket, client: Address, cfg: Config, now: int,
                                 serverError: string, unreachable: string)
    requires |hs| > 0
    requires ClientOf(hs, "From").Some? && ClientOf(hs, "From").value in s.registry
    requires ClientOf(hs, "To").Some? && ClientOf(hs, "To").value !in s.registry
    ensures Screen(s, hs, socket, client, cfg, now, serverError, unreachable)
            == Respond(s, hs, unreachable, socket, client)
  {
    assert Admit(s.registry, hs, now) == Unreachable;
    assert s.(registry := Admitted(s.registry, hs, now)) == s;
  }

  /** A lapsed callee is evicted, then answered with the unreachable status. */
  lemma ScreenLapsedCallee(s: State, hs: seq<string>, socket: Socket, client: Address, cfg: Config, now: int,
                           serverError: string, unreachable: string)
    requires |hs| > 0
    requires ClientOf(hs, "From").Some? && ClientOf(hs, "From").value in s.registry
    requires ClientOf(hs, "To").Some? && ClientOf(hs, "To").value in s.registry
    requires s.registry[ClientOf(hs, "To").value].validity <= now
    ensures Screen(s, hs, socket, client, cfg, now, serverError, unreachable)
            == Respond(s.(registry := s.registry - {ClientOf(hs, "To").value}), hs, unreachable, socket, client)
  {
    var d := ClientOf(hs, "To").value;
    assert Admit(s.registry, hs, now) == Unreachable;
    var s1 := s.(registry := s.registry - {d});
    assert s.(registry := Admitted(s.registry, hs, now)) == s1;
  }

  /** A live callee gets the message relayed. */
  lemma ScreenForward(s: State, hs: seq<string>, socket: Socket, client: Address, cfg: Config, now: int,
                      serverError: string, unreachable: string)
    requires |hs| > 0
    requires ClientOf(hs, "From").Some? && ClientOf(hs, "From").value in s.registry
    requires ClientOf(hs, "To").Some? && ClientOf(hs, "To").value in s.registry
    requires s.registry[ClientOf(hs, "To").value].validity > now
    ensures Screen(s, hs, socket, client, cfg, now, serverError, unreachable)
            == Step(Resend(s, hs, ClientOf(hs, "To"), cfg, client), hs)
  {
    var d := ClientOf(hs, "To").value;
    assert Admit(s.registry, hs, now) == Forward(d) && Admitted(s.registry, hs, now) == s.registry by {
      AdmitForward(s.registry, hs, now);
    }
    assert s.(registry := Admitted(s.registry, hs, now)) == s;
  }

  /** A registered caller and a live registered callee are forwarded, evicting nothing. */
  lemma AdmitForward(reg: map<string, Entry>, hs: seq<string>, now: int)
    requires ClientOf(hs, "From").Some? && ClientOf(hs, "From").value in reg
    requires ClientOf(hs, "To").Some? && ClientOf(hs, "To").value in reg
    requires reg[ClientOf(hs, "To").value].validity > now
    ensures Admit(reg, hs, now) == Forward(ClientOf(hs, "To").value)
    ensures Admitted(reg, hs, now) == reg
  {
  }

  function Invite(s: State, hs: seq<string>, socket: Socket, client: Address, cfg: Config, now: int): Step
    requires |hs| > 0
  {
    Screen(s, hs, socket, client, cfg, now, InviteServerError, CalleeUnavailable)
  }

  function Other(s: State, hs: seq<string>, socket: Socket, client: Address, cfg: Config, now: int): Step
    requires |hs| > 0
  {
    Screen(s, hs, socket, client, cfg, now, OtherServerError, NotAcceptable)
  }

  /** Admission sends exactly one datagram: the response to the sender, or the
      relayed message to the admitted callee. It never touches the calls. */
  lemma AdmissionSendsOne(s: State, hs: seq<string>, socket: Socket, client: Address, cfg: Config, now: int,
                          serverError: string, unreachable: string)
    requires |hs| > 0
    ensures var st := Screen(s, hs, socket, client, cfg, now, serverError, unreachable);
            var a := Admit(s.registry, hs, now);
            && st.state.calling == s.calling && st.state.log == s.log
            && st.state.registry == Admitted(s.registry, hs, now)
            && |st.state.sent| == |s.sent| + 1
            && (a.Forward? ==>
                  && st.headers == hs
                  && st.state.sent[|s.sent|] == Datagram(Relay(hs, cfg, client), s.registry[a.callee].socket,
                                                         s.registry[a.callee].client))
            && (!a.Forward? ==>
                  && st.state.sent[|s.sent|].dest == client
                  && st.state.sent[|s.sent|].lines == st.headers
                  && st.headers[0] == "SIP/2.0 " + (if a.UnknownCaller? then CallerUnknown
                                                   else if a.NoCallee? then serverError else unreachable))
  {
    var from, to := ClientOf(hs, "From"), ClientOf(hs, "To");
    if from.None? || from.value !in s.registry {
      ScreenUnknownCaller(s, hs, socket, client, cfg, now, serverError, unreachable);
    } else if to.None? {
      ScreenNoCallee(s, hs, socket, client, cfg, now, serverError, unreachable);
    } else if to.value !in s.registry {
      ScreenUnregisteredCallee(s, hs, socket, client, cfg, now, serverError, unreachable);
    } else if s.registry[to.value].validity <= now {
      ScreenLapsedCallee(s, hs, socket, client, cfg, now, serverError, unreachable);
    } else {
      ScreenForward(s, hs, socket, client, cfg, now, serverError, unreachable);
    }
  }

  /** Admission touches neither the calls nor the log, and changes the registry
      only by eviction. */
  lemma ScreenKeepsCalls(s: State, hs: seq<string>, socket: Socket, client: Address, cfg: Config, now: int,
                         serverError: string, unreachable: string)
    requires |hs| > 0
    ensures var st := Screen(s, hs, socket, client, cfg, now, serverError, unreachable);
            st.state.calling == s.calling && st.state.log == s.log
            && st.state.registry == Admitted(s.registry, hs, now)
  {
    var s1 := s.(registry := Admitted(s.registry, hs, now));
    match Admit(s.registry, hs, now)
    case Forward(d) =>
      assert Admitted(s.registry, hs, now) == s.registry;
      ResendEffect(s1, hs, Some(d), cfg, client);
    case _ =>
  }

  /** Admission leaves the Call-ID of a request alone. */
  lemma AdmissionKeepsCallId(s: State, hs: seq<string>, socket: Socket, client: Address, cfg: Config, now: int,
                             serverError: string, unreachable: string)
    requires |hs| > 0 && CallIdIn(hs[0]).None?
    ensures CallIdOf(Screen(s, hs, socket, client, cfg, now, serverError, unreachable).headers) == CallIdOf(hs)
  {
    var s1 := s.(registry := Admitted(s.registry, hs, now));
    match Admit(s.registry, hs, now)
    case UnknownCaller => ResponseKeepsCallId(hs, CallerUnknown, client);
    case NoCallee => ResponseKeepsCallId(hs, serverError, client);
    case Unreachable => ResponseKeepsCallId(hs, unreachable, client);
    case Forward(d) =>
  }

  // ---------------------------------------------------------------------------
  // Calls

  /** INVITE bookkeeping: an untracked Call-ID is added and logged. */
  function Track(s: State, hs: seq<string>): State
  {
    var call := CallIdOf(hs);
    if call in s.calling then s
    else s.(calling := s.calling + {call},
            log := s.log + [CallEvent(Started, call, ClientOf(hs, "From"), ClientOf(hs, "To"))])
  }

  /** ACK bookkeeping: a tracked Call-ID is logged as accepted. */
  function Acknowledge(s: State, hs: seq<string>): State
  {
    var call := CallIdOf(hs);
    if call in s.calling then s.(log := s.log + [CallEvent(Accepted, call, ClientOf(hs, "From"), ClientOf(hs, "To"))])
    else s
  }

  /** BYE, CANCEL, 486 and 603 bookkeeping: a tracked Call-ID is removed and logged. */
  function Untrack(s: State, hs: seq<string>, kind: CallKind): State
  {
    var call := CallIdOf(hs);
    if call in s.calling
    then s.(calling := s.calling - {call},
            log := s.log + [CallEvent(kind, call, ClientOf(hs, "From"), ClientOf(hs, "To"))])
    else s
  }

  // ---------------------------------------------------------------------------
  // `handle`

  function HandleRegister(s: State, hs: seq<string>, socket: Socket, client: Address, now: int): State
    requires |hs| > 0
  {
    var r := Register(hs, socket, client, now);
    if r.Failed? then s else Respond(Enroll(s, r), hs, Ok, socket, client).state
  }

  function HandleInvite(s: State, hs: seq<string>, socket: Socket, client: Address, cfg: Config, now: int): State
    requires |hs| > 0
  {
    var st := Invite(s, hs, socket, client, cfg, now);
    Track(st.state, st.headers)
  }

  function HandleAck(s: State, hs: seq<string>, client: Address, cfg: Config): State
  {
    Acknowledge(Resend(s, hs, ClientOf(hs, "To"), cfg, client), hs)
  }

  /** Line 0 of a status message as it is relayed: 486 and 100 get new reason texts. */
  function StatusHeaders(hs: seq<string>): seq<string>
    requires |hs| > 0
  {
    var code := StatusCode(hs[0]);
    if code == Some("486") then hs[0 := Busy]
    else if code == Some("100") then hs[0 := Trying]
    else hs
  }

  function HandleStatus(s: State, hs: seq<string>, client: Address, cfg: Config): State
    requires |hs| > 0
  {
    var code := StatusCode(hs[0]);
    var hs1 := StatusHeaders(hs);
    var s1 := if code == Some("603") || code == Some("486") then Untrack(s, hs1, Rejected) else s;
    Resend(s1, hs1, ClientOf(hs1, "From"), cfg, client)
  }

  function HandleOther(s: State, hs: seq<string>, socket: Socket, client: Address, cfg: Config, now: int): State
    requires |hs| > 0
  {
    var st := Other(s, hs, socket, client, cfg, now);
    if StartsWith(hs[0], "BYE") then Untrack(st.state, st.headers, Ended)
    else if StartsWith(hs[0], "CANCEL") then Untrack(st.state, st.headers, Cancelled)
    else st.state
  }

  /** Whether `handle` looks at a datagram at all: it decodes, and line 0 is
      non-empty and holds `SIP/2.0`. */
  predicate Dispatched(input: Option<seq<string>>)
  {
    input.Some? && |input.value| > 0 && IsSipLine(input.value[0])
  }

  /** `handle`: one datagram (`None` when it is not UTF-8) from `client` on `socket`. */
  function Handle(s: State, input: Option<seq<string>>, socket: Socket, client: Address, cfg: Config, now: int): State
  {
    if !Dispatched(input) then s
    else
      var hs := input.value;
      var request := hs[0];
      if StartsWith(request, "REGISTER") then HandleRegister(s, hs, socket, client, now)
      else if StartsWith(request, "INVITE") then HandleInvite(s, hs, socket, client, cfg, now)
      else if StartsWith(request, "ACK") then HandleAck(s, hs, client, cfg)
      else if IsStatusLine(request) then HandleStatus(s, hs, client, cfg)
      else if IsNotification(request) then Respond(s, hs, Ok, socket, client).state
      else HandleOther(s, hs, socket, client, cfg, now)
  }

  // ---------------------------------------------------------------------------
  // What `handle` does, kind by kind

  /** A datagram that does not decode, or whose line 0 is empty or lacks `SIP/2.0`,
      changes nothing and sends nothing. */
  lemma DropsMalformed(s: State, input: Option<seq<string>>, socket: Socket, client: Address, cfg: Config, now: int)
    requires !Dispatched(input)
    ensures Handle(s, input, socket, client, cfg, now) == s
  {
  }

  lemma DispatchInvite(s: State, hs: seq<string>, socket: Socket, client: Address, cfg: Config, now: int)
    requires Dispatched(Some(hs)) && StartsWith(hs[0], "INVITE")
    ensures Handle(s, Some(hs), socket, client, cfg, now) == HandleInvite(s, hs, socket, client, cfg, now)
  {
    StartsDiffer(hs[0], "INVITE", "REGISTER");
  }

  lemma DispatchAck(s: State, hs: seq<string>, socket: Socket, client: Address, cfg: Config, now: int)
    requires Dispatched(Some(hs)) && StartsWith(hs[0], "ACK")
    ensures Handle(s, Some(hs), socket, client, cfg, now) == HandleAck(s, hs, client, cfg)
  {
    StartsDiffer(hs[0], "ACK", "REGISTER");
    StartsDiffer(hs[0], "ACK", "INVITE");
  }

  lemma DispatchStatus(s: State, hs: seq<string>, socket: Socket, client: Address, cfg: Config, now: int)
    requires Dispatched(Some(hs)) && IsStatusLine(hs[0])
    ensures Handle(s, Some(hs), socket, client, cfg, now) == HandleStatus(s, hs, client, cfg)
  {
    StatusLineHead(hs[0]);
    NotStartingWith(hs[0], "REGISTER");
    NotStartingWith(hs[0], "INVITE");
    NotStartingWith(hs[0], "ACK");
  }

  /** A method name BYE or CANCEL reaches `sip_other`. */
  lemma DispatchOther(s: State, hs: seq<string>, socket: Socket, client: Address, cfg: Config, now: int, m: string)
    requires Dispatched(Some(hs)) && (m == "BYE" || m == "CANCEL") && StartsWith(hs[0], m)
    ensures Handle(s, Some(hs), socket, client, cfg, now) == HandleOther(s, hs, socket, client, cfg, now)
  {
    HeadOfPrefix(hs[0], m);
    NotStartingWith(hs[0], "REGISTER");
    NotStartingWith(hs[0], "INVITE");
    NotStartingWith(hs[0], "ACK");
    NotStartingWith(hs[0], "SUBSCRIBE");
    NotStartingWith(hs[0], "PUBLISH");
    NotStartingWith(hs[0], "NOTIFY");
    if IsStatusLine(hs[0]) { StatusLineHead(hs[0]); }
  }

  lemma NotStartingWith(line: string, p: string)
    requires |line| > 0 && |p| > 0 && line[0] != p[0]
    ensures !StartsWith(line, p)
  {
    if StartsWith(line, p) { HeadOfPrefix(line, p); }
  }

  /** INVITE adds its Call-ID to `calling` whatever the admission outcome, even when
      it was refused; the registry changes only by the eviction of a lapsed callee. */
  lemma InviteTracksCall(s: State, hs: seq<string>, socket: Socket, client: Address, cfg: Config, now: int)
    requires Dispatched(Some(hs)) && StartsWith(hs[0], "INVITE")
    ensures var s' := Handle(s, Some(hs), socket, client, cfg, now);
            && s'.calling == s.calling + {CallIdOf(hs)}
            && s'.registry == Admitted(s.registry, hs, now)
  {
    DispatchInvite(s, hs, socket, client, cfg, now);
    HeadOfPrefix(hs[0], "INVITE");
    NotCallId(hs[0]);
    AdmissionKeepsCallId(s, hs, socket, client, cfg, now, InviteServerError, CalleeUnavailable);
    ScreenKeepsCalls(s, hs, socket, client, cfg, now, InviteServerError, CalleeUnavailable);
  }

  /** Handling the same INVITE twice leaves the same set of calls as handling it once. */
  lemma InviteIdempotent(s: State, hs: seq<string>, socket: Socket, client: Address, cfg: Config, now: int, now': int)
    requires Dispatched(Some(hs)) && StartsWith(hs[0], "INVITE")
    ensures var s1 := Handle(s, Some(hs), socket, client, cfg, now);
            Handle(s1, Some(hs), socket, client, cfg, now').calling == s1.calling
  {
    var s1 := Handle(s, Some(hs), socket, client, cfg, now);
    InviteTracksCall(s, hs, socket, client, cfg, now);
    InviteTracksCall(s1, hs, socket, client, cfg, now');
  }

  /** ACK only reads `calling`, and never changes the registry. */
  lemma AckKeepsCalls(s: State, hs: seq<string>, socket: Socket, client: Address, cfg: Config, now: int)
    requires Dispatched(Some(hs)) && StartsWith(hs[0], "ACK")
    ensures var s' := Handle(s, Some(hs), socket, client, cfg, now);
            s'.calling == s.calling && s'.registry == s.registry
  {
    DispatchAck(s, hs, socket, client, cfg, now);
    ResendEffect(s, hs, ClientOf(hs, "To"), cfg, client);
  }

  /** BYE and CANCEL remove their Call-ID from `calling`. */
  lemma HangUpUntracks(s: State, hs: seq<string>, socket: Socket, client: Address, cfg: Config, now: int, m: string)
    requires Dispatched(Some(hs)) && (m == "BYE" || m == "CANCEL") && StartsWith(hs[0], m)
    ensures var s' := Handle(s, Some(hs), socket, client, cfg, now);
            && s'.calling == s.calling - {CallIdOf(hs)}
            && s'.registry == Admitted(s.registry, hs, now)
  {
    DispatchOther(s, hs, socket, client, cfg, now, m);
    OtherUntracks(s, hs, socket, client, cfg, now, m);
  }

  lemma OtherUntracks(s: State, hs: seq<string>, socket: Socket, client: Address, cfg: Config, now: int, m: string)
    requires |hs| > 0 && (m == "BYE" || m == "CANCEL") && StartsWith(hs[0], m)
    ensures var s' := HandleOther(s, hs, socket, client, cfg, now);
            && s'.calling == s.calling - {CallIdOf(hs)}
            && s'.registry == Admitted(s.registry, hs, now)
  {
    var st := Other(s, hs, socket, client, cfg, now);
    HangUpBranch(s, hs, socket, client, cfg, now, m);
    HangUpIsNoCallId(hs[0], m);
    AdmissionKeepsCallId(s, hs, socket, client, cfg, now, OtherServerError, NotAcceptable);
    ScreenKeepsCalls(s, hs, socket, client, cfg, now, OtherServerError, NotAcceptable);
    UntrackRemoves(st.state, st.headers, if m == "BYE" then Ended else Cancelled);
  }

  /** Untracking removes the Call-ID whether or not it was tracked. */
  lemma UntrackRemoves(s: State, hs: seq<string>, kind: CallKind)
    ensures Untrack(s, hs, kind).calling == s.calling - {CallIdOf(hs)}
    ensures Untrack(s, hs, kind).registry == s.registry
  {
  }

  lemma HangUpBranch(s: State, hs: seq<string>, socket: Socket, client: Address, cfg: Config, now: int, m: string)
    requires |hs| > 0 && (m == "BYE" || m == "CANCEL") && StartsWith(hs[0], m)
    ensures var st := Other(s, hs, socket, client, cfg, now);
            HandleOther(s, hs, socket, client, cfg, now)
              == Untrack(st.state, st.headers, if m == "BYE" then Ended else Cancelled)
  {
    if m == "CANCEL" { StartsDiffer(hs[0], m, "BYE"); }
  }

  lemma HangUpIsNoCallId(line: string, m: string)
    requires (m == "BYE" || m == "CANCEL") && StartsWith(line, m)
    ensures CallIdIn(line).None?
  {
    HeadOfPrefix(line, m);
    if m == "BYE" {
      NotCallId(line);
    } else {
      assert line[..|m|][2] == line[2];
      NotNamedAt(line, "Call-ID", 2);
    }
  }

  /** A repeated BYE or CANCEL leaves `calling` as the first one did. */
  lemma HangUpIdempotent(s: State, hs: seq<string>, socket: Socket, client: Address, cfg: Config, now: int,
                         now': int, m: string)
    requires Dispatched(Some(hs)) && (m == "BYE" || m == "CANCEL") && StartsWith(hs[0], m)
    ensures var s1 := Handle(s, Some(hs), socket, client, cfg, now);
            Handle(s1, Some(hs), socket, client, cfg, now').calling == s1.calling
  {
    var s1 := Handle(s, Some(hs), socket, client, cfg, now);
    HangUpUntracks(s, hs, socket, client, cfg, now, m);
    HangUpUntracks(s1, hs, socket, client, cfg, now', m);
  }

  /** A 486 or 603 status removes its Call-ID from `calling`; any other status keeps
      `calling`. A status never changes the registry. */
  lemma StatusUntracksRejection(s: State, hs: seq<string>, socket: Socket, client: Address, cfg: Config, now: int)
    requires Dispatched(Some(hs)) && IsStatusLine(hs[0])
    ensures var s' := Handle(s, Some(hs), socket, client, cfg, now);
            var code := StatusCode(hs[0]);
            && s'.registry == s.registry
            && s'.calling == if code == Some("486") || code == Some("603") then s.calling - {CallIdOf(hs)} else s.calling
  {
    DispatchStatus(s, hs, socket, client, cfg, now);
    StatusUntracks(s, hs, client, cfg);
  }

  lemma StatusUntracks(s: State, hs: seq<string>, client: Address, cfg: Config)
    requires |hs| > 0 && IsStatusLine(hs[0])
    ensures var s' := HandleStatus(s, hs, client, cfg);
            var code := StatusCode(hs[0]);
            && s'.registry == s.registry
            && s'.calling == if code == Some("486") || code == Some("603") then s.calling - {CallIdOf(hs)} else s.calling
  {
    StatusKeepsCallId(hs);
    var hs1 := StatusHeaders(hs);
    var code := StatusCode(hs[0]);
    var target := ClientOf(hs1, "From");
    if code == Some("603") || code == Some("486") {
      var s1 := Untrack(s, hs1, Rejected);
      UntrackRemoves(s, hs1, Rejected);
      assert HandleStatus(s, hs, client, cfg) == Resend(s1, hs1, target, cfg, client);
      ResendEffect(s1, hs1, target, cfg, client);
    } else {
      assert HandleStatus(s, hs, client, cfg) == Resend(s, hs1, target, cfg, client);
      ResendEffect(s, hs1, target, cfg, client);
    }
  }

  /** The reason-text rewrite of a status line keeps the Call-ID. */
  lemma StatusKeepsCallId(hs: seq<string>)
    requires |hs| > 0 && IsStatusLine(hs[0])
    ensures CallIdOf(StatusHeaders(hs)) == CallIdOf(hs)
  {
    StatusLineHead(hs[0]);
    NotCallId(hs[0]);
    var code := StatusCode(hs[0]);
    if code == Some("486") {
      assert StatusHeaders(hs) == hs[0 := Busy];
      assert Busy[0] == 'S';
      NotCallId(Busy);
      CallIdOfNewHead(hs, Busy);
    } else if code == Some("100") {
      assert StatusHeaders(hs) == hs[0 := Trying];
      assert Trying[0] == 'S';
      NotCallId(Trying);
      CallIdOfNewHead(hs, Trying);
    } else {
      assert StatusHeaders(hs) == hs;
    }
  }

  /** A 486 reaches the registered caller named in From as `SIP/2.0 486 Obsadene`,
      relayed like any other message, RECORD_ROUTE right after line 0; an unknown
      caller gets nothing. */
  lemma BusyRelayed(s: State, hs: seq<string>, socket: Socket, client: Address, cfg: Config, now: int)
    requires Dispatched(Some(hs)) && IsStatusLine(hs[0]) && StatusCode(hs[0]) == Some("486")
    ensures var s' := Handle(s, Some(hs), socket, client, cfg, now);
            var hs1 := hs[0 := Busy];
            var target := ClientOf(hs1, "From");
            var r := Relay(hs1, cfg, client);
            && (target.Some? && target.value in s.registry ==>
                  s'.sent == s.sent + [Datagram(r, s.registry[target.value].socket, s.registry[target.value].client)])
            && (target.None? || target.value !in s.registry ==> s'.sent == s.sent)
            && (|hs| >= 2 ==> |r| >= 2 && r[0] == Busy && r[1] == RecordRoute(cfg))
  {
    DispatchStatus(s, hs, socket, client, cfg, now);
    BusyStatusRelayed(s, hs, client, cfg);
  }

  /** The status branch itself: a 486 is relabelled, its Call-ID untracked, and the
      relabelled message relayed to the caller. */
  lemma BusyStatusRelayed(s: State, hs: seq<string>, client: Address, cfg: Config)
    requires |hs| > 0 && StatusCode(hs[0]) == Some("486")
    ensures var s' := HandleStatus(s, hs, client, cfg);
            var hs1 := hs[0 := Busy];
            var target := ClientOf(hs1, "From");
            var r := Relay(hs1, cfg, client);
            && StatusHeaders(hs) == hs1
            && (target.Some? && target.value in s.registry ==>
                  s'.sent == s.sent + [Datagram(r, s.registry[target.value].socket, s.registry[target.value].client)])
            && (target.None? || target.value !in s.registry ==> s'.sent == s.sent)
            && (|hs| >= 2 ==> |r| >= 2 && r[0] == Busy && r[1] == RecordRoute(cfg))
  {
    var hs1 := StatusHeaders(hs);
    var s1 := Untrack(s, hs1, Rejected);
    var target := ClientOf(hs1, "From");
    assert hs1 == hs[0 := Busy];
    assert HandleStatus(s, hs, client, cfg) == Resend(s1, hs1, target, cfg, client);
    assert s1.registry == s.registry && s1.sent == s.sent;
    ResendEffect(s1, hs1, target, cfg, client);
    if |hs| >= 2 {
      RelabelledFirst(hs, Busy, cfg, client);
    }
  }

  /** A 100 reaches the registered caller named in From as `SIP/2.0 100 Volame`,
      RECORD_ROUTE right after line 0; `calling` is left alone. */
  lemma TryingRelayed(s: State, hs: seq<string>, socket: Socket, client: Address, cfg: Config, now: int)
    requires Dispatched(Some(hs)) && IsStatusLine(hs[0]) && StatusCode(hs[0]) == Some("100")
    ensures var s' := Handle(s, Some(hs), socket, client, cfg, now);
            var hs1 := hs[0 := Trying];
            var target := ClientOf(hs1, "From");
            var r := Relay(hs1, cfg, client);
            && s'.calling == s.calling
            && (target.Some? && target.value in s.registry ==>
                  s'.sent == s.sent + [Datagram(r, s.registry[target.value].socket, s.registry[target.value].client)])
            && (target.None? || target.value !in s.registry ==> s'.sent == s.sent)
            && (|hs| >= 2 ==> |r| >= 2 && r[0] == Trying && r[1] == RecordRoute(cfg))
  {
    DispatchStatus(s, hs, socket, client, cfg, now);
    TryingStatusRelayed(s, hs, client, cfg);
  }

  /** The status branch itself relays a 100 relabelled and untracks nothing. */
  lemma TryingStatusRelayed(s: State, hs: seq<string>, client: Address, cfg: Config)
    requires |hs| > 0 && StatusCode(hs[0]) == Some("100")
    ensures var s' := HandleStatus(s, hs, client, cfg);
            var hs1 := hs[0 := Trying];
            var target := ClientOf(hs1, "From");
            var r := Relay(hs1, cfg, client);
            && StatusHeaders(hs) == hs1
            && s'.calling == s.calling
            && (target.Some? && target.value in s.registry ==>
                  s'.sent == s.sent + [Datagram(r, s.registry[target.value].socket, s.registry[target.value].client)])
            && (target.None? || target.value !in s.registry ==> s'.sent == s.sent)
            && (|hs| >= 2 ==> |r| >= 2 && r[0] == Trying && r[1] == RecordRoute(cfg))
  {
    var hs1 := StatusHeaders(hs);
    var target := ClientOf(hs1, "From");
    assert hs1 == hs[0 := Trying];
    assert HandleStatus(s, hs, client, cfg) == Resend(s, hs1, target, cfg, client);
    ResendEffect(s, hs1, target, cfg, client);
    if |hs| >= 2 {
      RelabelledFirst(hs, Trying, cfg, client);
    }
  }

  /** A new status line put into line 0 is no Via or Route line, so it is relayed
      first with RECORD_ROUTE after it. */
  lemma RelabelledFirst(hs: seq<string>, head: string, cfg: Config, client: Address)
    requires |hs| >= 2 && |head| > 0 && head[0] == 'S'
    ensures var r := Relay(hs[0 := head], cfg, client);
            |r| >= 2 && r[0] == head && r[1] == RecordRoute(cfg)
  {
    NotNamed(head, "Via");
    NotNamed(head, "v");
    NotNamed(head, "Route");
    RelayRecordRouteSecond(hs[0 := head], cfg, client);
  }

  /** REGISTER: a failed registration changes nothing and sends nothing; otherwise
      the outcome is applied and `200 0K` goes back to the sender. */
  lemma RegisterHandled(s: State, hs: seq<string>, socket: Socket, client: Address, cfg: Config, now: int)
    requires Dispatched(Some(hs)) && StartsWith(hs[0], "REGISTER")
    ensures var s' := Handle(s, Some(hs), socket, client, cfg, now);
            var r := Register(hs, socket, client, now);
            && (r.Failed? ==> s' == s)
            && (!r.Failed? ==>
                  && s'.registry == Enroll(s, r).registry && s'.log == Enroll(s, r).log
                  && s'.calling == s.calling
                  && s'.sent == s.sent + [Datagram(ResponseLines(hs, Ok, client), socket, client)]
                  && s'.sent[|s.sent|].lines[0] == "SIP/2.0 " + Ok)
  {
    var r := Register(hs, socket, client, now);
    if !r.Failed? {
      EnrollEffect(s, r);
    }
  }

  /** SUBSCRIBE, PUBLISH and NOTIFY are answered `200 0K` and change nothing else. */
  lemma NotificationAnswered(s: State, hs: seq<string>, socket: Socket, client: Address, cfg: Config, now: int, m: string)
    requires Dispatched(Some(hs)) && (m == "SUBSCRIBE" || m == "PUBLISH" || m == "NOTIFY") && StartsWith(hs[0], m)
    ensures var s' := Handle(s, Some(hs), socket, client, cfg, now);
            && s'.registry == s.registry && s'.calling == s.calling && s'.log == s.log
            && s'.sent == s.sent + [Datagram(ResponseLines(hs, Ok, client), socket, client)]
  {
    HeadOfPrefix(hs[0], m);
    NotStartingWith(hs[0], "REGISTER");
    NotStartingWith(hs[0], "INVITE");
    NotStartingWith(hs[0], "ACK");
    if IsStatusLine(hs[0]) {
      StatusLineHead(hs[0]);
      assert false;
    }
    assert IsNotification(hs[0]);
  }

  /** Every entry of `reg'` is an unchanged entry of `reg`. */
  predicate Within(reg': map<string, Entry>, reg: map<string, Entry>)
  {
    forall k :: k in reg' ==> k in reg && reg'[k] == reg[k]
  }

  /** Outside REGISTER the registry can only lose entries, never gain or change one. */
  lemma RegistryOnlyShrinks(s: State, input: Option<seq<string>>, socket: Socket, client: Address, cfg: Config, now: int)
    requires input.Some? && |input.value| > 0 && !StartsWith(input.value[0], "REGISTER")
    ensures Within(Handle(s, input, socket, client, cfg, now).registry, s.registry)
  {
    if Dispatched(input) {
      var hs := input.value;
      AdmittedEvictsLapsedCallee(s.registry, hs, now);
      assert Within(Admitted(s.registry, hs, now), s.registry);
      if StartsWith(hs[0], "INVITE") {
        InviteTracksCall(s, hs, socket, client, cfg, now);
      } else if StartsWith(hs[0], "ACK") {
        AckKeepsCalls(s, hs, socket, client, cfg, now);
      } else if IsStatusLine(hs[0]) {
        StatusUntracksRejection(s, hs, socket, client, cfg, now);
      } else if IsNotification(hs[0]) {
        assert Handle(s, input, socket, client, cfg, now).registry == s.registry;
      } else {
        assert Handle(s, input, socket, client, cfg, now) == HandleOther(s, hs, socket, client, cfg, now);
        OtherRegistry(s, hs, socket, client, cfg, now);
      }
    }
  }

  lemma OtherRegistry(s: State, hs: seq<string>, socket: Socket, client: Address, cfg: Config, now: int)
    requires |hs| > 0
    ensures HandleOther(s, hs, socket, client, cfg, now).registry == Admitted(s.registry, hs, now)
  {
    ScreenKeepsCalls(s, hs, socket, client, cfg, now, OtherServerError, NotAcceptable);
  }
}
