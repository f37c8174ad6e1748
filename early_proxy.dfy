/** The first version of the proxy, sip_proxy.py: it answers REGISTER requests and
    ignores everything else. Header names are matched case-sensitively with
    `startswith`, its registry keeps no expiry, and its `forward_response` knows
    only the To and Content-Length rewrites. */
module EarlyProxy {
  import opened Text
  import opened Headers
  import opened Rewrite

  /** `[contact, socket, client_address]`, the value stored per identity. */
  datatype Binding = Binding(contact: string, socket: Socket, client: Address)

  /** The module-level `registry` and every datagram sent. */
  datatype Table = Table(registry: map<string, Binding>, sent: seq<Datagram>)

  const RegisterOk: string := "200 0K"

  // ---------------------------------------------------------------------------
  // `forward_response`

  /** What `forward_response` does to one line: a `To:` line lacking `;tag` gets the
      fixed tag, a `Content-Length:` line becomes `Content-Length: 0`. */
  function ForwardLine(h: string): string
  {
    if StartsWith(h, "To:") && !Contains(h, ";tag") then h + Tag
    else if StartsWith(h, "Content-Length:") then "Content-Length: 0"
    else h
  }

  /** The lines `forward_response(code)` leaves in `self.headers` and sends. */
  function ForwardLines(hs: seq<string>, code: string): (r: seq<string>)
    requires |hs| > 0
    ensures |r| == |hs| && r[0] == "SIP/2.0 " + code
  {
    StatusLineUntouched(code);
    seq(|hs|, k requires 0 <= k < |hs| => ForwardLine(if k == 0 then "SIP/2.0 " + code else hs[k]))
  }

  /** The status line put into line 0 is neither a `To:` nor a `Content-Length:` line. */
  lemma StatusLineUntouched(code: string)
    ensures ForwardLine("SIP/2.0 " + code) == "SIP/2.0 " + code
  {
    var l := "SIP/2.0 " + code;
    assert l[0] == 'S';
    StartsDiffer(l, "S", "To:");
    StartsDiffer(l, "S", "Content-Length:");
  }

  /** After one pass every `To:` line other than line 0 holds `;tag`; one that had
      none gets exactly the fixed tag appended. */
  lemma ForwardTags(hs: seq<string>, code: string, i: nat)
    requires 0 < i < |hs| && StartsWith(hs[i], "To:")
    ensures var r := ForwardLines(hs, code);
            && Contains(r[i], ";tag")
            && (Contains(hs[i], ";tag") ==> r[i] == hs[i])
            && (!Contains(hs[i], ";tag") ==> r[i] == hs[i] + Tag)
  {
    var r := ForwardLines(hs, code);
    assert r[i] == ForwardLine(hs[i]);
    StartsDiffer(hs[i], "To:", "Content-Length:");
    if !Contains(hs[i], ";tag") {
      TagHoldsTag(hs[i]);
    }
  }

  lemma TagHoldsTag(h: string)
    ensures Contains(h + Tag, ";tag")
  {
    ContainsAppended(h, Tag);
    assert Tag == ";tag" + "=123456";
    assert Contains(h + Tag, ";tag" + "=123456");
    ContainsPrefix(h + Tag, ";tag", "=123456");
  }

  /** Every `Content-Length:` line other than line 0 is zeroed, whatever it held. */
  lemma ForwardZeroesLength(hs: seq<string>, code: string, i: nat)
    requires 0 < i < |hs| && StartsWith(hs[i], "Content-Length:")
    ensures ForwardLines(hs, code)[i] == "Content-Length: 0"
  {
    assert hs[i][0] == 'C' by { HeadOfPrefix(hs[i], "Content-Length:"); }
    StartsDiffer(hs[i], "Content-Length:", "To:");
  }

  /** Every other line is sent as it came. */
  lemma ForwardKeepsOthers(hs: seq<string>, code: string, i: nat)
    requires 0 < i < |hs| && !StartsWith(hs[i], "To:") && !StartsWith(hs[i], "Content-Length:")
    ensures ForwardLines(hs, code)[i] == hs[i]
  {
  }

  /** Rewriting a second time, with any code, gives what one pass with that code
      gives: no line is tagged twice and a zeroed length stays zero. */
  lemma ForwardIdempotent(hs: seq<string>, code: string, code': string)
    requires |hs| > 0
    ensures ForwardLines(ForwardLines(hs, code), code') == ForwardLines(hs, code')
  {
    var r := ForwardLines(hs, code);
    forall k | 0 < k < |hs| ensures ForwardLine(r[k]) == ForwardLine(hs[k]) {
      ForwardLineIdempotent(hs[k]);
    }
    assert ForwardLines(r, code') == ForwardLines(hs, code');
  }

  lemma ForwardLineIdempotent(h: string)
    ensures ForwardLine(ForwardLine(h)) == ForwardLine(h)
  {
    var zero := "Content-Length: 0";
    if StartsWith(h, "To:") && !Contains(h, ";tag") {
      TagHoldsTag(h);
      assert (h + Tag)[..3] == h[..3];
      StartsDiffer(h + Tag, "To:", "Content-Length:");
    } else if StartsWith(h, "Content-Length:") {
      assert zero[..15] == "Content-Length:";
      assert zero[0] == 'C';
      StartsDiffer(zero, "C", "To:");
    }
  }

  /** The later proxy's Content-Length pattern asks for a second colon, so of the two
      versions only this one zeroes an ordinary `Content-Length: N` line: for any run
      of digits the early rewrite sends `Content-Length: 0` where `response` sends
      the line as it came. */
  lemma LengthZeroedOnlyHere(hs: seq<string>, code: string, client: Address, i: nat, digits: string)
    requires 0 < i < |hs| && hs[i] == "Content-Length: " + digits
    requires forall k :: 0 <= k < |digits| ==> IsDigit(digits[k])
    ensures ForwardLines(hs, code)[i] == "Content-Length: 0"
    ensures ResponseLines(hs, code, client)[i] == hs[i]
  {
    var l := hs[i];
    assert l[..15] == "Content-Length:";
    ForwardZeroesLength(hs, code, i);
    assert l[0] == 'C';
    NotNamed(l, "To");
    NotNamed(l, "Via");
    NotNamed(l, "v");
    PlainContentLengthIgnored(digits);
    assert ResponseLines(hs, code, client)[i] == ResponseLine(l, client);
  }

  // ---------------------------------------------------------------------------
  // `sip_register`

  /** The locals `source` and `contact` of `sip_register`; `None` stands for unbound. */
  datatype Found = Found(source: Option<string>, contact: Option<string>)

  const NoneFound: Found := Found(None, None)

  /** The identity a `To:` line names, when it holds a SIP URI. */
  function ToIdentity(h: string): Option<string>
  {
    if StartsWith(h, "To:") then
      match SipUri(h) case Some(u) => Some(Identity(u)) case None => None
    else None
  }

  /** The contact host a `Contact:` line names, when it holds a SIP URI. */
  function ContactHost(h: string): Option<string>
  {
    if !StartsWith(h, "To:") && StartsWith(h, "Contact:") then
      match SipUri(h) case Some(u) => Some(u.host) case None => None
    else None
  }

  /** One iteration of the loop: a match rebinds its local, no match leaves it. */
  function Note(f: Found, h: string): Found
  {
    Found(if ToIdentity(h).Some? then ToIdentity(h) else f.source,
          if ContactHost(h).Some? then ContactHost(h) else f.contact)
  }

  /** The loop over the lines, from the first to the last. */
  function Collect(hs: seq<string>): Found
  {
    if |hs| == 0 then NoneFound else Note(Collect(hs[..|hs| - 1]), hs[|hs| - 1])
  }

  /** `source` ends up bound to the identity of the last `To:` line holding a URI. */
  lemma {:induction false} SourceIsLastTo(hs: seq<string>, k: nat)
    requires k < |hs| && ToIdentity(hs[k]).Some?
    requires forall j :: k < j < |hs| ==> ToIdentity(hs[j]).None?
    ensures Collect(hs).source == ToIdentity(hs[k])
    decreases |hs|
  {
    if k < |hs| - 1 {
      var init := hs[..|hs| - 1];
      assert forall j :: k < j < |init| ==> init[j] == hs[j];
      SourceIsLastTo(init, k);
    }
  }

  /** Without a `To:` line holding a URI, `source` stays unbound. */
  lemma {:induction false} SourceUnbound(hs: seq<string>)
    requires forall j :: 0 <= j < |hs| ==> ToIdentity(hs[j]).None?
    ensures Collect(hs).source.None?
    decreases |hs|
  {
    if |hs| > 0 {
      var init := hs[..|hs| - 1];
      assert forall j :: 0 <= j < |init| ==> init[j] == hs[j];
      SourceUnbound(init);
    }
  }

  /** `contact` ends up bound to the host of the last `Contact:` line holding a URI. */
  lemma {:induction false} ContactIsLast(hs: seq<string>, k: nat)
    requires k < |hs| && ContactHost(hs[k]).Some?
    requires forall j :: k < j < |hs| ==> ContactHost(hs[j]).None?
    ensures Collect(hs).contact == ContactHost(hs[k])
    decreases |hs|
  {
    if k < |hs| - 1 {
      var init := hs[..|hs| - 1];
      assert forall j :: k < j < |init| ==> init[j] == hs[j];
      ContactIsLast(init, k);
    }
  }

  /** Without a `Contact:` line holding a URI, `contact` stays unbound. */
  lemma {:induction false} ContactUnbound(hs: seq<string>)
    requires forall j :: 0 <= j < |hs| ==> ContactHost(hs[j]).None?
    ensures Collect(hs).contact.None?
    decreases |hs|
  {
    if |hs| > 0 {
      var init := hs[..|hs| - 1];
      assert forall j :: 0 <= j < |init| ==> init[j] == hs[j];
      ContactUnbound(init);
    }
  }

  /** A registration: the identity and what is stored under it. */
  datatype Enrolment = Enrolment(id: string, binding: Binding)

  /** `sip_register` without its side effects: `None` when a local is unbound (the
      `NameError` that ends the handler before anything is stored or sent). */
  function EarlyRegister(hs: seq<string>, socket: Socket, client: Address): Option<Enrolment>
  {
    var f := Collect(hs);
    if f.source.None? || f.contact.None? then None
    else Some(Enrolment(f.source.value, Binding(f.contact.value, socket, client)))
  }

  /** The registration names the last `To:` identity and the last `Contact:` host. */
  lemma RegisterNamesLast(hs: seq<string>, socket: Socket, client: Address, k: nat, l: nat)
    requires k < |hs| && ToIdentity(hs[k]).Some? && forall j :: k < j < |hs| ==> ToIdentity(hs[j]).None?
    requires l < |hs| && ContactHost(hs[l]).Some? && forall j :: l < j < |hs| ==> ContactHost(hs[j]).None?
    ensures EarlyRegister(hs, socket, client)
            == Some(Enrolment(ToIdentity(hs[k]).value, Binding(ContactHost(hs[l]).value, socket, client)))
  {
    SourceIsLastTo(hs, k);
    ContactIsLast(hs, l);
  }

  /** With no `To:` URI or no `Contact:` URI there is no registration. */
  lemma RegisterNeedsBoth(hs: seq<string>, socket: Socket, client: Address)
    requires (forall j :: 0 <= j < |hs| ==> ToIdentity(hs[j]).None?)
             || (forall j :: 0 <= j < |hs| ==> ContactHost(hs[j]).None?)
    ensures EarlyRegister(hs, socket, client).None?
  {
    if forall j :: 0 <= j < |hs| ==> ToIdentity(hs[j]).None? {
      SourceUnbound(hs);
    } else {
      ContactUnbound(hs);
    }
  }

  /** `sip_register` on the table: store the binding, then answer `200 0K`. */
  function Registered(s: Table, hs: seq<string>, socket: Socket, client: Address): Table
    requires |hs| > 0
  {
    match EarlyRegister(hs, socket, client)
    case None => s
    case Some(e) =>
      Table(s.registry[e.id := e.binding], s.sent + [Datagram(ForwardLines(hs, RegisterOk), socket, client)])
  }

  // ---------------------------------------------------------------------------
  // `handle`

  /** `handle`: one datagram (`None` when it is not UTF-8) from `client` on `socket`. */
  function HandleDatagram(s: Table, input: Option<seq<string>>, socket: Socket, client: Address): Table
  {
    if input.Some? && |input.value| > 0 && IsSipLine(input.value[0]) && StartsWith(input.value[0], "REGISTER")
    then Registered(s, input.value, socket, client)
    else s
  }

  /** Anything but a well-formed REGISTER changes nothing and sends nothing. */
  lemma OnlyRegisterHandled(s: Table, input: Option<seq<string>>, socket: Socket, client: Address)
    requires input.None? || |input.value| == 0 || !IsSipLine(input.value[0]) || !StartsWith(input.value[0], "REGISTER")
    ensures HandleDatagram(s, input, socket, client) == s
  {
  }

  /** A REGISTER either fails with nothing changed, or stores exactly one binding,
      keeps every other, and sends one reply back to the sender. */
  lemma RegisterEffect(s: Table, hs: seq<string>, socket: Socket, client: Address)
    requires |hs| > 0 && IsSipLine(hs[0]) && StartsWith(hs[0], "REGISTER")
    ensures var s' := HandleDatagram(s, Some(hs), socket, client);
            var e := EarlyRegister(hs, socket, client);
            && (e.None? ==> s' == s)
            && (e.Some? ==>
                  && e.value.id in s'.registry && s'.registry[e.value.id] == e.value.binding
                  && (forall k :: k != e.value.id ==> (k in s'.registry <==> k in s.registry))
                  && (forall k :: k != e.value.id && k in s.registry ==> s'.registry[k] == s.registry[k])
                  && |s'.sent| == |s.sent| + 1 && s'.sent[..|s.sent|] == s.sent
                  && s'.sent[|s.sent|].socket == socket && s'.sent[|s.sent|].dest == client
                  && s'.sent[|s.sent|].lines[0] == "SIP/2.0 " + RegisterOk)
  {
    var e := EarlyRegister(hs, socket, client);
    if e.Some? {
      var s' := HandleDatagram(s, Some(hs), socket, client);
      assert s'.sent == s.sent + [Datagram(ForwardLines(hs, RegisterOk), socket, client)];
    }
  }

  /** Registering the same message twice leaves the registry as once: the second
      binding overwrites the first with the same value. */
  lemma ReRegisterKeepsRegistry(s: Table, input: Option<seq<string>>, socket: Socket, client: Address)
    ensures var once := HandleDatagram(s, input, socket, client);
            HandleDatagram(once, input, socket, client).registry == once.registry
  {
  }

  // ---------------------------------------------------------------------------
  // The handler as the source writes it

  /** The module-level `registry`, with every datagram sent. */
  class Registrar {
    var registry: map<string, Binding>
    var sent: seq<Datagram>

    constructor ()
      ensures registry == map[] && sent == []
    {
      registry := map[];
      sent := [];
    }

    function Snapshot(): Table
      reads this
    {
      Table(registry, sent)
    }
  }

  /** One `SIPProxy` handler of the first version. */
  class Handler {
    const registrar: Registrar
    var headers: seq<string>
    var socket: Socket
    var client: Address

    constructor (registrar: Registrar, socket: Socket, client: Address)
      ensures this.registrar == registrar && this.socket == socket && this.client == client
      ensures headers == []
    {
      this.registrar := registrar;
      this.socket := socket;
      this.client := client;
      headers := [];
    }

    /** `forward_response(code)`: line 0 becomes the status line, the lines are
        rewritten in place and the result goes back to the sender. */
    method ForwardResponse(code: string)
      requires |headers| > 0
      modifies this, registrar
      ensures headers == ForwardLines(old(headers), code)
      ensures registrar.registry == old(registrar.registry)
      ensures registrar.sent == old(registrar.sent) + [Datagram(headers, socket, client)]
      ensures socket == old(socket) && client == old(client)
    {
      headers := headers[0 := "SIP/2.0 " + code];
      StatusLineUntouched(code);
      ghost var start := headers;
      var i := 0;
      while i < |headers|
        invariant 0 <= i <= |headers| == |start|
        invariant forall j :: 0 <= j < i ==> headers[j] == ForwardLines(old(headers), code)[j]
        invariant forall j :: i <= j < |headers| ==> headers[j] == start[j]
        invariant socket == old(socket) && client == old(client) && unchanged(registrar)
      {
        var header := headers[i];
        if StartsWith(header, "To:") && !Contains(header, ";tag") {
          headers := headers[i := headers[i] + Tag];
        } else if StartsWith(header, "Content-Length:") {
          headers := headers[i := "Content-Length: 0"];
        }
        i := i + 1;
      }
      registrar.sent := registrar.sent + [Datagram(headers, socket, client)];
    }

    /** `sip_register()`. The `NameError` of an unbound local is the outcome `None`,
        with nothing stored or sent. */
    method SipRegister() returns (outcome: Option<Enrolment>)
      requires |headers| > 0
      modifies this, registrar
      ensures outcome == EarlyRegister(old(headers), old(socket), old(client))
      ensures registrar.Snapshot() == Registered(old(registrar.Snapshot()), old(headers), old(socket), old(client))
      ensures socket == old(socket) && client == old(client)
    {
      var source: Option<string> := None;
      var contact: Option<string> := None;
      var i := 0;
      while i < |headers|
        invariant 0 <= i <= |headers|
        invariant Found(source, contact) == Collect(headers[..i])
      {
        var header := headers[i];
        assert headers[..i + 1][..i] == headers[..i];
        if StartsWith(header, "To:") {
          var m := SipUri(header);
          if m.Some? {
            source := Some(m.value.user + "@" + m.value.host);
          }
        } else if StartsWith(header, "Contact:") {
          var m := SipUri(header);
          if m.Some? {
            contact := Some(m.value.host);
          }
        }
        i := i + 1;
      }
      assert headers[..i] == headers;
      if source.None? || contact.None? {
        return None;
      }
      var binding := Binding(contact.value, socket, client);
      registrar.registry := registrar.registry[source.value := binding];
      outcome := Some(Enrolment(source.value, binding));
      ForwardResponse(RegisterOk);
    }

    /** `handle()`: one datagram, `None` when it does not decode as UTF-8, from
        `peer` on socket `sock`. */
    method Handle(message: Option<seq<string>>, sock: Socket, peer: Address)
      modifies this, registrar
      ensures registrar.Snapshot() == HandleDatagram(old(registrar.Snapshot()), message, sock, peer)
    {
      socket := sock;
      client := peer;
      if message.None? {
        return;
      }
      headers := message.value;
      // `split` never yields an empty list; one is dropped like an empty line 0.
      if |headers| == 0 {
        return;
      }
      var request := headers[0];
      if |request| > 0 && Contains(request, "SIP/2.0") {
        if StartsWith(request, "REGISTER") {
          var outcome := SipRegister();
        }
      }
    }
  }
}
