/** The `SIPProxy` request handler of sipproxy.py as a class over the module state.
    Each method updates `headers` and the shared `Store` step by step as the
    source does, and is proved to compute the functions of the `Engine` module. */
module Proxy {
  import opened Text
  import opened Headers
  import opened Rewrite
  import opened Engine

  /** The module-level `registry` and `calling`, with everything sent through a
      socket and everything logged. */
  class Store {
    var registry: map<string, Entry>
    var calling: set<Option<string>>
    var sent: seq<Datagram>
    var log: seq<Event>

    constructor ()
      ensures registry == map[] && calling == {} && sent == [] && log == []
    {
      registry := map[];
      calling := {};
      sent := [];
      log := [];
    }

    function Snapshot(): State
      reads this
    {
      State(registry, calling, sent, log)
    }
  }

  /** One handler: the lines of the datagram being handled, the socket it came in
      on and the peer that sent it. */
  class Handler {
    const store: Store
    const cfg: Config
    var headers: seq<string>
    var socket: Socket
    var client: Address

    constructor (store: Store, cfg: Config, socket: Socket, client: Address)
      ensures this.store == store && this.cfg == cfg && this.socket == socket && this.client == client
      ensures headers == []
    {
      this.store := store;
      this.cfg := cfg;
      this.socket := socket;
      this.client := client;
      headers := [];
    }

    /** `expired(target)`. */
    method Expired(target: string, now: int) returns (gone: bool)
      requires target in store.registry
      modifies store
      ensures (gone, store.registry) == Expire(old(store.registry), target, now)
      ensures store.calling == old(store.calling) && store.sent == old(store.sent) && store.log == old(store.log)
    {
      gone := store.registry[target].validity <= now;
      if gone {
        store.registry := store.registry - {target};
      }
    }

    /** `find_client(direction)`, the direction given by its header name. */
    method FindClient(name: string) returns (r: Option<string>)
      ensures r == ClientOf(headers, name)
    {
      ghost var vs := ClientsIn(headers, name);
      var i := 0;
      while i < |headers|
        invariant 0 <= i <= |headers|
        invariant forall j :: 0 <= j < i ==> vs[j].None?
      {
        var header := headers[i];
        if HasName(header, name) {
          var m := SipUri(header);
          if m.Some? {
            r := Some(m.value.user + "@" + m.value.host);
            assert vs[i] == r;
            FirstSomeAt(vs, i);
            return;
          }
        }
        assert vs[i].None?;
        i := i + 1;
      }
      r := None;
    }

    method Participants() returns (a: Option<string>, b: Option<string>)
      ensures a == ClientOf(headers, "From") && b == ClientOf(headers, "To")
    {
      a := FindClient("From");
      b := FindClient("To");
    }

    /** `call_id()`. */
    method CallId() returns (r: Option<string>)
      ensures r == CallIdOf(headers)
    {
      r := FirstValue("Call-ID");
      assert ValuesIn(headers, "Call-ID") == CallIdsIn(headers);
    }

    /** The `(.*)$` group of the first line named `name` that the pattern matches. */
    method FirstValue(name: string) returns (r: Option<string>)
      ensures r == FirstSome(ValuesIn(headers, name))
    {
      ghost var vs := ValuesIn(headers, name);
      var i := 0;
      while i < |headers|
        invariant 0 <= i <= |headers|
        invariant forall j :: 0 <= j < i ==> vs[j].None?
      {
        var m := HeaderValue(headers[i], name);
        assert m == vs[i];
        if m.Some? {
          r := m;
          FirstSomeAt(vs, i);
          return;
        }
        i := i + 1;
      }
      r := None;
    }

    /** `response(code)`: line 0 becomes the status line, the lines are rewritten in
        place and the result goes back to the sender. */
    method Response(code: string)
      requires |headers| > 0
      modifies this, store
      ensures headers == ResponseLines(old(headers), code, client)
      ensures store.Snapshot() == Respond(old(store.Snapshot()), old(headers), code, socket, client).state
      ensures socket == old(socket) && client == old(client)
    {
      headers := headers[0 := "SIP/2.0 " + code];
      ghost var start := headers;
      var i := 0;
      while i < |headers|
        invariant 0 <= i <= |headers| == |start|
        invariant forall j :: 0 <= j < i ==> headers[j] == ResponseLines(old(headers), code, client)[j]
        invariant forall j :: i <= j < |headers| ==> headers[j] == start[j]
        invariant socket == old(socket) && client == old(client) && unchanged(store)
      {
        var header := headers[i];
        if IsTo(header) && !Contains(header, ";tag") {
          headers := headers[i := header + Tag];
        } else if IsVia(header) {
          if Contains(header, ";rport") {
            headers := headers[i := ReplaceAll(header, "rport", NatParams(client))];
          } else {
            headers := headers[i := header + ";received=" + client.ip];
          }
        } else if IsContentLengthAsWritten(header) {
          headers := headers[i := "Content-Length: 0"];
        }
        i := i + 1;
      }
      store.sent := store.sent + [Datagram(headers, socket, client)];
    }

    /** `sip_register()`. A Python exception (an unbound local, or `int()` on text
        that is no integer) is the outcome `Failed`, with the store untouched. */
    method SipRegister(now: int) returns (outcome: Registration)
      modifies store
      ensures outcome == Register(headers, socket, client, now)
      ensures store.Snapshot() == Enroll(old(store.Snapshot()), outcome)
    {
      var source: Option<string> := None;
      var contact: Option<string> := None;
      var expires: Option<int> := None;
      var i := 0;
      while i < |headers|
        invariant 0 <= i <= |headers|
        invariant Scan(headers[i..], Fields(source, contact, expires)) == Scan(headers, Unbound)
      {
        var header := headers[i];
        assert headers[i..][0] == header && headers[i..][1..] == headers[i + 1..];
        if IsTo(header) {
          var m := SipUri(header);
          if m.Some? {
            source := Some(m.value.user + "@" + m.value.host);
          }
        } else if IsContact(header) {
          var m := SipUri(header);
          if m.Some? {
            contact := Some(m.value.host);
          }
          var e := ExpiresParam(header);
          if e.Some? {
            var n := ParseInt(e.value);
            if n.None? {
              return Failed;
            }
            expires := n;
          }
        } else {
          var e := HeaderValue(header, "Expires");
          if e.Some? {
            var n := ParseInt(e.value);
            if n.None? {
              return Failed;
            }
            expires := n;
          }
        }
        i := i + 1;
      }
      assert headers[i..] == [];
      if expires.None? {
        return Failed;
      }
      if expires.value == 0 {
        if source.None? {
          return Failed;
        }
        store.registry := store.registry - {source.value};
        return Removed(source.value);
      }
      if source.None? || contact.None? {
        return Failed;
      }
      var validity := now + expires.value;
      var change := source.value !in store.registry;
      var entry := Entry(socket, contact.value, client, validity);
      store.registry := store.registry[source.value := entry];
      if change {
        store.log := store.log + [Registered(source.value)];
      }
      outcome := Stored(source.value, entry);
    }

    /** `resend(target)`: build the relayed lines and send them to the target's
        registered address; nothing happens for an unknown target. */
    method Resend(target: Option<string>)
      modifies store
      ensures store.Snapshot() == Engine.Resend(old(store.Snapshot()), headers, target, cfg, client)
    {
      if target.None? || target.value !in store.registry {
        return;
      }
      var response := Relayed();
      var entity := store.registry[target.value];
      store.sent := store.sent + [Datagram(response, entity.socket, entity.client)];
    }

    /** The loop of `resend` that builds the outgoing lines: Route lines dropped, Via
        lines marked (and preceded by the proxy's own Via when they carry a branch),
        the Record-Route line inserted once the first line is out. */
    method Relayed() returns (response: seq<string>)
      ensures response == Relay(headers, cfg, client)
    {
      var hs := headers;
      response := [];
      var i := 0;
      while i < |hs|
        invariant 0 <= i <= |hs|
        invariant response == Assemble(Chunks(hs[..i], cfg, client), RecordRoute(cfg))
      {
        AssembleStep(hs, i, cfg, client);
        if |response| == 1 {
          response := response + [RecordRoute(cfg)];
        }
        var lines := Emitted(hs[i]);
        response := response + lines;
        i := i + 1;
      }
      assert hs[..i] == hs;
    }

    /** One pass of that loop: the lines a single original line turns into. */
    method Emitted(header: string) returns (lines: seq<string>)
      ensures lines == Emit(header, cfg, client)
    {
      lines := [];
      if IsVia(header) {
        var m := Branch(header);
        if m.Some? {
          lines := [ViaHeader(cfg) + ";branch=" + m.value];
        }
        var via: string;
        if RportBare(header) {
          via := ReplaceAll(header, "rport", NatParams(client));
        } else {
          via := header + ";received=" + client.ip;
        }
        lines := lines + [via];
      } else if !IsRoute(header) {
        lines := [header];
      }
    }

    method ResendToSource()
      modifies store
      ensures store.Snapshot() == Engine.Resend(old(store.Snapshot()), headers, ClientOf(headers, "From"), cfg, client)
    {
      var target := FindClient("From");
      Resend(target);
    }

    method ResendToDestination()
      modifies store
      ensures store.Snapshot() == Engine.Resend(old(store.Snapshot()), headers, ClientOf(headers, "To"), cfg, client)
    {
      var target := FindClient("To");
      Resend(target);
    }

    /** The body shared by `sip_invite` and `sip_other`, which differ only in two
        status texts. */
    method Admission(now: int, serverError: string, unreachable: string)
      requires |headers| > 0
      modifies this, store
      ensures Step(store.Snapshot(), headers)
              == Screen(old(store.Snapshot()), old(headers), socket, client, cfg, now, serverError, unreachable)
      ensures socket == old(socket) && client == old(client)
    {
      ghost var s0 := store.Snapshot();
      var source := FindClient("From");
      if source.None? || source.value !in store.registry {
        ScreenUnknownCaller(s0, headers, socket, client, cfg, now, serverError, unreachable);
        Response(CallerUnknown);
        return;
      }
      var destination := FindClient("To");
      if destination.None? {
        ScreenNoCallee(s0, headers, socket, client, cfg, now, serverError, unreachable);
        Response(serverError);
        return;
      }
      if destination.value !in store.registry {
        ScreenUnregisteredCallee(s0, headers, socket, client, cfg, now, serverError, unreachable);
        Response(unreachable);
        return;
      }
      var gone := Expired(destination.value, now);
      if gone {
        ScreenLapsedCallee(s0, headers, socket, client, cfg, now, serverError, unreachable);
        assert store.Snapshot() == s0.(registry := s0.registry - {destination.value});
        Response(unreachable);
        return;
      }
      ScreenForward(s0, headers, socket, client, cfg, now, serverError, unreachable);
      assert store.Snapshot() == s0;
      Resend(destination);
    }

    /** `sip_invite()`. */
    method SipInvite(now: int)
      requires |headers| > 0
      modifies this, store
      ensures Step(store.Snapshot(), headers) == Invite(old(store.Snapshot()), old(headers), socket, client, cfg, now)
      ensures socket == old(socket) && client == old(client)
    {
      Admission(now, InviteServerError, CalleeUnavailable);
    }

    /** `sip_other()`. */
    method SipOther(now: int)
      requires |headers| > 0
      modifies this, store
      ensures Step(store.Snapshot(), headers) == Other(old(store.Snapshot()), old(headers), socket, client, cfg, now)
      ensures socket == old(socket) && client == old(client)
    {
      Admission(now, OtherServerError, NotAcceptable);
    }

    /** The REGISTER branch of `handle`. */
    method OnRegister(now: int)
      requires |headers| > 0
      modifies this, store
      ensures store.Snapshot() == HandleRegister(old(store.Snapshot()), old(headers), socket, client, now)
      ensures socket == old(socket) && client == old(client)
    {
      ghost var hs := headers;
      var outcome := SipRegister(now);
      if !outcome.Failed? {
        Response(Ok);
      }
    }

    /** The INVITE branch of `handle`. */
    method OnInvite(now: int)
      requires |headers| > 0
      modifies this, store
      ensures store.Snapshot() == HandleInvite(old(store.Snapshot()), old(headers), socket, client, cfg, now)
      ensures socket == old(socket) && client == old(client)
    {
      ghost var st := Invite(old(store.Snapshot()), headers, socket, client, cfg, now);
      SipInvite(now);
      assert store.Snapshot() == st.state && headers == st.headers;
      var a, b := Participants();
      var call := CallId();
      if call !in store.calling {
        ghost var s1 := st.state.(calling := st.state.calling + {call},
                                  log := st.state.log + [CallEvent(Started, call, a, b)]);
        assert Track(st.state, st.headers) == s1;
        store.log := store.log + [CallEvent(Started, call, a, b)];
        store.calling := store.calling + {call};
        assert store.Snapshot() == s1;
      } else {
        assert Track(st.state, st.headers) == st.state;
      }
    }

    /** The ACK branch of `handle`. */
    method OnAck()
      modifies this, store
      ensures store.Snapshot() == HandleAck(old(store.Snapshot()), old(headers), client, cfg)
      ensures socket == old(socket) && client == old(client)
    {
      ResendToDestination();
      var a, b := Participants();
      var call := CallId();
      if call in store.calling {
        store.log := store.log + [CallEvent(Accepted, call, a, b)];
      }
    }

    /** The new reason texts the status branch writes into line 0. */
    method Relabel(code: Option<string>)
      requires |headers| > 0 && code == StatusCode(headers[0])
      modifies this
      ensures headers == StatusHeaders(old(headers))
      ensures socket == old(socket) && client == old(client)
    {
      if code == Some("486") {
        headers := headers[0 := "SIP/2.0 " + code.value + " Obsadene"];
        assert headers[0] == Busy;
      } else if code == Some("100") {
        headers := headers[0 := "SIP/2.0 " + code.value + " Volame"];
        assert headers[0] == Trying;
      }
    }

    /** The status-line branch of `handle`. */
    method OnStatus()
      requires |headers| > 0
      modifies this, store
      ensures store.Snapshot() == HandleStatus(old(store.Snapshot()), old(headers), client, cfg)
      ensures socket == old(socket) && client == old(client)
    {
      ghost var s0 := store.Snapshot();
      ghost var hs := headers;
      var m := StatusCode(headers[0]);
      Relabel(m);
      assert store.Snapshot() == s0;
      ghost var s1 := if m == Some("603") || m == Some("486") then Untrack(s0, headers, Rejected) else s0;
      if m == Some("603") || m == Some("486") {
        Hangup(Rejected);
      }
      assert store.Snapshot() == s1;
      assert HandleStatus(s0, hs, client, cfg) == Engine.Resend(s1, headers, ClientOf(headers, "From"), cfg, client);
      ResendToSource();
    }

    /** The remaining branch of `handle`: `sip_other()`, then BYE and CANCEL end the call. */
    method OnOther(now: int)
      requires |headers| > 0
      modifies this, store
      ensures store.Snapshot() == HandleOther(old(store.Snapshot()), old(headers), socket, client, cfg, now)
      ensures socket == old(socket) && client == old(client)
    {
      var request := headers[0];
      SipOther(now);
      if StartsWith(request, "BYE") {
        Hangup(Ended);
      } else if StartsWith(request, "CANCEL") {
        Hangup(Cancelled);
      }
    }

    /** The bookkeeping of BYE, CANCEL and a rejection: a tracked call is logged and
        removed. */
    method Hangup(kind: CallKind)
      modifies store
      ensures store.Snapshot() == Untrack(old(store.Snapshot()), headers, kind)
    {
      ghost var s0 := store.Snapshot();
      var a, b := Participants();
      var call := CallId();
      if call in store.calling {
        ghost var s1 := s0.(calling := s0.calling - {call}, log := s0.log + [CallEvent(kind, call, a, b)]);
        assert Untrack(s0, headers, kind) == s1;
        store.log := store.log + [CallEvent(kind, call, a, b)];
        store.calling := store.calling - {call};
        assert store.Snapshot() == s1;
      } else {
        assert Untrack(s0, headers, kind) == s0;
      }
    }

    /** `handle()`: one datagram, `None` when it does not decode as UTF-8, from
        `peer` on socket `sock` at time `now`. */
    method Handle(message: Option<seq<string>>, sock: Socket, peer: Address, now: int)
      modifies this, store
      ensures store.Snapshot() == Engine.Handle(old(store.Snapshot()), message, sock, peer, cfg, now)
    {
      socket := sock;
      client := peer;
      ghost var s0 := store.Snapshot();
      if message.None? {
        return;
      }
      headers := message.value;
      // `split` never yields an empty list; one is dropped like an empty line 0.
      if |headers| == 0 {
        return;
      }
      var request := headers[0];
      if !IsSipLine(request) {
        return;
      }
      ghost var hs := headers;
      if StartsWith(request, "REGISTER") {
        assert Engine.Handle(s0, message, sock, peer, cfg, now) == HandleRegister(s0, hs, sock, peer, now);
        OnRegister(now);
      } else if StartsWith(request, "INVITE") {
        assert Engine.Handle(s0, message, sock, peer, cfg, now) == HandleInvite(s0, hs, sock, peer, cfg, now);
        OnInvite(now);
      } else if StartsWith(request, "ACK") {
        assert Engine.Handle(s0, message, sock, peer, cfg, now) == HandleAck(s0, hs, peer, cfg);
        OnAck();
      } else if IsStatusLine(request) {
        assert Engine.Handle(s0, message, sock, peer, cfg, now) == HandleStatus(s0, hs, peer, cfg);
        OnStatus();
      } else if IsNotification(request) {
        assert Engine.Handle(s0, message, sock, peer, cfg, now) == Respond(s0, hs, Ok, sock, peer).state;
        Response(Ok);
      } else {
        assert Engine.Handle(s0, message, sock, peer, cfg, now) == HandleOther(s0, hs, sock, peer, cfg, now);
        OnOther(now);
      }
    }
  }

  /** One step of the `resend` loop: the list built over one more line is the list
      so far, RECORD_ROUTE when it holds one line, then that line's output. */
  lemma AssembleStep(hs: seq<string>, i: nat, cfg: Config, client: Address)
    requires i < |hs|
    ensures var acc := Assemble(Chunks(hs[..i], cfg, client), RecordRoute(cfg));
            Assemble(Chunks(hs[..i + 1], cfg, client), RecordRoute(cfg))
              == (if |acc| == 1 then acc + [RecordRoute(cfg)] else acc) + Emit(hs[i], cfg, client)
  {
    var cs := Chunks(hs[..i + 1], cfg, client);
    assert cs[..i] == Chunks(hs[..i], cfg, client);
    assert cs[i] == Emit(hs[i], cfg, client);
  }
}
