/** The two message builders of sipproxy.py: `response`, which turns a request
    into the status response sent back to its sender, and `resend`, which builds
    the relayed copy of a message. Both are given here as functions of the
    message lines; the handler methods that run them are proved equal to them. */
module Rewrite {
  import opened Text
  import opened Headers

  /** A UDP peer address, the `(ip, port)` tuple of `client_address`. */
  datatype Address = Address(ip: string, port: nat)

  /** A server socket, known only by its identity. */
  type Socket = nat

  /** One `sendto`: the joined lines, the socket they leave by and the peer they go to. */
  datatype Datagram = Datagram(lines: seq<string>, socket: Socket, dest: Address)

  /** The proxy's own address (`settings.SIP_IP`, `settings.SIP_PORT`). */
  datatype Config = Config(ip: string, port: nat)

  /** The fixed To tag of every generated response. */
  const Tag: string := ";tag=123456"

  function ProxyAddress(cfg: Config): string
  {
    cfg.ip + ":" + Decimal(cfg.port)
  }

  /** `VIA_HEADER`: the proxy's own Via entry, without a branch. */
  function ViaHeader(cfg: Config): string
  {
    "Via: SIP/2.0/UDP " + ProxyAddress(cfg)
  }

  /** `RECORD_ROUTE`: loose-routing Record-Route naming the proxy. */
  function RecordRoute(cfg: Config): string
  {
    "Record-Route: <sip:" + ProxyAddress(cfg) + ";lr>"
  }

  /** The proxy Via inserted in front of a Via carrying `branch`. */
  function BranchVia(cfg: Config, branch: string): string
  {
    ViaHeader(cfg) + ";branch=" + branch
  }

  /** `'received=%s;rport=%d' % client_address`. */
  function NatParams(client: Address): string
  {
    "received=" + client.ip + ";rport=" + Decimal(client.port)
  }

  /** The NAT rewrite of a Via line (after section 18.2.1 of RFC 3261 and section 4
      of RFC 3581): when the rport test holds every `rport` in the line becomes the
      observed address and port, otherwise the observed address is appended. */
  function MarkReceived(via: string, client: Address, bare: bool): string
  {
    if bare then ReplaceAll(via, "rport", NatParams(client)) else via + ";received=" + client.ip
  }

  // ---------------------------------------------------------------------------
  // `response`

  /** What `response` does to one line: tag a To line lacking `;tag`, else mark a
      Via line with the sender's address, else zero a line matching the
      Content-Length pattern as written. */
  function ResponseLine(h: string, client: Address): string
  {
    if IsTo(h) && !Contains(h, ";tag") then h + Tag
    else if IsVia(h) then MarkReceived(h, client, Contains(h, ";rport"))
    else if IsContentLengthAsWritten(h) then "Content-Length: 0"
    else h
  }

  /** The lines `response(code)` leaves in `self.headers` and sends. */
  function ResponseLines(hs: seq<string>, code: string, client: Address): (r: seq<string>)
    requires |hs| > 0
    ensures |r| == |hs| && r[0] == "SIP/2.0 " + code
  {
    StatusLineIsNoHeader(code);
    assert ResponseLine("SIP/2.0 " + code, client) == "SIP/2.0 " + code;
    seq(|hs|, k requires 0 <= k < |hs| => ResponseLine(if k == 0 then "SIP/2.0 " + code else hs[k], client))
  }

  /** `response` leaves the Call-ID of a message alone: it rewrites only To, Via and
      Content-Length lines and line 0, and none of those is a Call-ID line. */
  lemma ResponseKeepsCallId(hs: seq<string>, code: string, client: Address)
    requires |hs| > 0 && CallIdIn(hs[0]).None?
    ensures CallIdOf(ResponseLines(hs, code, client)) == CallIdOf(hs)
  {
    var r := ResponseLines(hs, code, client);
    var status := "SIP/2.0 " + code;
    assert status[0] == 'S';
    NotCallId(status);
    forall k | 0 < k < |hs| ensures CallIdIn(r[k]) == CallIdIn(hs[k]) {
      assert r[k] == ResponseLine(hs[k], client);
      ResponseLineKeepsCallId(hs[k], client);
    }
    assert CallIdsIn(r) == CallIdsIn(hs);
  }

  lemma ResponseLineKeepsCallId(h: string, client: Address)
    ensures CallIdIn(ResponseLine(h, client)) == CallIdIn(h)
  {
    if IsTo(h) {
      LowerHeadOfName(h, "To");
      NotCallId(h);
      if !Contains(h, ";tag") {
        UntaggedLineTagged(h, client);
        assert (h + Tag)[0] == h[0];
        NotCallId(h + Tag);
      } else {
        TaggedLineKept(h, client);
      }
    } else if IsVia(h) {
      if HasName(h, "Via") { LowerHeadOfName(h, "Via"); } else { LowerHeadOfName(h, "v"); }
      NotCallId(h);
      ViaResponse(h, client);
      MarkedHead(h, client, Contains(h, ";rport"));
      NotCallId(ResponseLine(h, client));
    } else if IsContentLengthAsWritten(h) {
      ContentLengthIsNoCallId(h);
      var z := "Content-Length: 0";
      assert z[1] == 'o';
      NotNamedAt(z, "Call-ID", 1);
    }
  }

  lemma ContentLengthIsNoCallId(h: string)
    requires IsContentLengthAsWritten(h)
    ensures CallIdIn(h).None?
  {
    var n := "Content-Length:";
    assert h[..|n|][1] == h[1];
    assert Lower(h[1]) == 'o';
    NotNamedAt(h, "Call-ID", 1);
  }

  /** A header that is neither To, Via nor the Content-Length pattern goes out unchanged. */
  lemma ResponseKeepsOtherLines(hs: seq<string>, code: string, client: Address, i: nat)
    requires 0 < i < |hs| && !IsTo(hs[i]) && !IsVia(hs[i]) && !IsContentLengthAsWritten(hs[i])
    ensures ResponseLines(hs, code, client)[i] == hs[i]
  {
  }

  /** A To line leaves `response` with a tag, exactly one appended: not at all when
      it had one, and a second `response` adds none. */
  lemma ResponseTagsOnce(hs: seq<string>, code: string, code': string, client: Address, client': Address, i: nat)
    requires 0 < i < |hs| && IsTo(hs[i])
    ensures var r := ResponseLines(hs, code, client);
            && IsTo(r[i]) && Contains(r[i], ";tag")
            && r[i] == (if Contains(hs[i], ";tag") then hs[i] else hs[i] + Tag)
            && ResponseLines(r, code', client')[i] == r[i]
  {
    var r := ResponseLines(hs, code, client);
    assert r[i] == ResponseLine(hs[i], client);
    TagOnce(hs[i], client, client');
    assert ResponseLines(r, code', client')[i] == ResponseLine(r[i], client');
  }

  lemma TagOnce(h: string, client: Address, client': Address)
    requires IsTo(h)
    ensures var o := ResponseLine(h, client);
            && o == (if Contains(h, ";tag") then h else h + Tag)
            && IsTo(o) && Contains(o, ";tag") && ResponseLine(o, client') == o
  {
    if Contains(h, ";tag") {
      TaggedLineKept(h, client);
      TaggedLineKept(h, client');
    } else {
      UntaggedLineTagged(h, client);
      TagAppended(h);
      TaggedLineKept(h + Tag, client');
    }
  }

  lemma TaggedLineKept(h: string, client: Address)
    requires IsTo(h) && Contains(h, ";tag")
    ensures ResponseLine(h, client) == h
  {
    ToIsNoOther(h);
  }

  lemma UntaggedLineTagged(h: string, client: Address)
    requires IsTo(h) && !Contains(h, ";tag")
    ensures ResponseLine(h, client) == h + Tag
  {
  }

  lemma TagAppended(h: string)
    requires IsTo(h)
    ensures IsTo(h + Tag) && Contains(h + Tag, ";tag")
  {
    HasNameExtended(h, "To", Tag);
    assert Tag == ";tag" + "=123456";
    ContainsAppended(h, Tag);
    ContainsPrefix(h + Tag, ";tag", "=123456");
  }

  /** As written, the Content-Length rule never fires on an ordinary
      `Content-Length: N` line: `response` sends it unchanged. */
  lemma ResponseKeepsContentLength(hs: seq<string>, code: string, client: Address, i: nat, digits: string)
    requires 0 < i < |hs| && hs[i] == "Content-Length: " + digits
    requires forall k :: 0 <= k < |digits| ==> IsDigit(digits[k])
    ensures ResponseLines(hs, code, client)[i] == hs[i]
  {
    PlainContentLengthIgnored(digits);
    NotNamed(hs[i], "To");
    NotNamed(hs[i], "Via");
    NotNamed(hs[i], "v");
  }

  /** `response` marks each Via with the sender's address: with a bare `;rport`
      present the line gains `received=<ip>;rport=<port>`, otherwise exactly
      `;received=<ip>` is appended. */
  lemma ResponseMarksVia(hs: seq<string>, code: string, client: Address, i: nat)
    requires 0 < i < |hs| && IsVia(hs[i])
    ensures var out := ResponseLines(hs, code, client)[i];
            && (Contains(hs[i], ";rport") ==> Contains(out, NatParams(client)))
            && (!Contains(hs[i], ";rport") ==> out == hs[i] + ";received=" + client.ip)
            && Contains(out, "received=" + client.ip)
  {
    var h := hs[i];
    assert ResponseLines(hs, code, client)[i] == ResponseLine(h, client);
    ViaResponse(h, client);
    var bare := Contains(h, ";rport");
    if bare {
      assert ";rport" == ";" + "rport";
      ContainsSuffix(h, ";", "rport");
    }
    ReceivedMarked(h, client, bare);
  }

  /** The Via rule is reached for every Via line. */
  lemma ViaResponse(h: string, client: Address)
    requires IsVia(h)
    ensures ResponseLine(h, client) == MarkReceived(h, client, Contains(h, ";rport"))
  {
    ViaIsNoOther(h);
  }

  /** Both branches of the Via rewrite leave `received=<ip>` in the line. */
  lemma ReceivedMarked(h: string, client: Address, bare: bool)
    requires bare ==> Contains(h, "rport")
    ensures bare ==> Contains(MarkReceived(h, client, bare), NatParams(client))
    ensures Contains(MarkReceived(h, client, bare), "received=" + client.ip)
  {
    var n := NatParams(client);
    assert n == ("received=" + client.ip) + (";rport=" + Decimal(client.port));
    if bare {
      ReplaceInserts(h, "rport", n);
      ContainsPrefix(MarkReceived(h, client, bare), "received=" + client.ip, ";rport=" + Decimal(client.port));
    } else {
      ContainsAppended(h + ";", "received=" + client.ip);
      assert h + ";received=" + client.ip == (h + ";") + ("received=" + client.ip);
    }
  }

  // ---------------------------------------------------------------------------
  // `resend`

  /** The lines `resend` emits for one original line: for a Via, the proxy's Via
      with the copied branch (when there is one) then the NAT-marked original; a
      Route line is dropped; every other line is copied. */
  function Emit(h: string, cfg: Config, client: Address): (r: seq<string>)
    ensures |r| <= 2
  {
    if IsVia(h) then
      (match Branch(h) case Some(b) => [BranchVia(cfg, b)] case None => [])
      + [MarkReceived(h, client, RportBare(h))]
    else if IsRoute(h) then []
    else [h]
  }

  /** The output of each original line, in order. */
  function Chunks(hs: seq<string>, cfg: Config, client: Address): (cs: seq<seq<string>>)
    ensures |cs| == |hs| && forall k :: 0 <= k < |hs| ==> cs[k] == Emit(hs[k], cfg, client)
  {
    seq(|hs|, k requires 0 <= k < |hs| => Emit(hs[k], cfg, client))
  }

  /** The chunks laid end to end. */
  function Concat(cs: seq<seq<string>>): seq<string>
    decreases |cs|
  {
    if |cs| == 0 then [] else Concat(cs[..|cs| - 1]) + cs[|cs| - 1]
  }

  /** The way `resend` builds its list from the chunks: before each chunk it appends
      `rr` when the list built so far holds exactly one line. */
  function Assemble(cs: seq<seq<string>>, rr: string): seq<string>
    decreases |cs|
  {
    if |cs| == 0 then []
    else
      var acc := Assemble(cs[..|cs| - 1], rr);
      (if |acc| == 1 then acc + [rr] else acc) + cs[|cs| - 1]
  }

  /** `rr` goes in when, before some chunk after the first, exactly one line has been
      emitted. */
  predicate Inserted(cs: seq<seq<string>>)
  {
    exists k :: 1 <= k < |cs| && |Concat(cs[..k])| == 1
  }

  /** The list `resend` sends for the message `hs`. */
  function Relay(hs: seq<string>, cfg: Config, client: Address): seq<string>
  {
    Assemble(Chunks(hs, cfg, client), RecordRoute(cfg))
  }

  lemma {:induction false} ConcatAppend(a: seq<seq<string>>, b: seq<seq<string>>)
    ensures Concat(a + b) == Concat(a) + Concat(b)
    decreases |b|
  {
    if |b| > 0 {
      var b' := b[..|b| - 1];
      assert (a + b)[..|a + b| - 1] == a + b';
      ConcatAppend(a, b');
    } else {
      assert a + b == a;
    }
  }

  /** Chunk `k` sits in the concatenation right after the chunks before it. */
  lemma ConcatAt(cs: seq<seq<string>>, k: nat)
    requires k < |cs|
    ensures var p := |Concat(cs[..k])|;
            p + |cs[k]| <= |Concat(cs)| && Concat(cs)[p..p + |cs[k]|] == cs[k]
            && Concat(cs[..k + 1]) == Concat(cs[..k]) + cs[k]
  {
    assert cs == cs[..k] + ([cs[k]] + cs[k + 1..]);
    ConcatAppend(cs[..k], [cs[k]] + cs[k + 1..]);
    ConcatAppend([cs[k]], cs[k + 1..]);
    assert Concat([cs[k]]) == cs[k] by { assert [cs[k]][..0] == []; }
    assert cs[..k + 1] == cs[..k] + [cs[k]];
    ConcatAppend(cs[..k], [cs[k]]);
  }

  /** Emitted output only grows. */
  lemma ConcatGrows(cs: seq<seq<string>>, j: nat, k: nat)
    requires j <= k <= |cs|
    ensures |Concat(cs[..j])| <= |Concat(cs[..k])|
  {
    assert cs[..k] == cs[..j] + cs[j..k];
    ConcatAppend(cs[..j], cs[j..k]);
  }

  /** The assembled list is the concatenation with `rr` put at index 1 when it is
      inserted at all, so it is inserted at most once and nothing else moves. */
  lemma {:induction false} AssembleShape(cs: seq<seq<string>>, rr: string)
    ensures Inserted(cs) ==> |Concat(cs)| >= 1
    ensures Assemble(cs, rr) ==
              if Inserted(cs) then Concat(cs)[..1] + [rr] + Concat(cs)[1..] else Concat(cs)
    decreases |cs|
  {
    if |cs| > 0 {
      var p := cs[..|cs| - 1];
      var last := cs[|cs| - 1];
      AssembleShape(p, rr);
      InsertedExtends(cs);
      var fp := Concat(p);
      var acc := Assemble(p, rr);
      assert Concat(cs) == fp + last;
      assert Assemble(cs, rr) == (if |acc| == 1 then acc + [rr] else acc) + last;
      if Inserted(p) {
        InsertAfterFirst(fp, last, rr);
      } else if |p| >= 1 && |fp| == 1 {
        InsertAfterFirst(fp, last, rr);
        assert fp[..1] == fp && fp[1..] == [];
      } else if |p| == 0 {
        assert fp == [];
      }
    }
  }

  /** The line goes in before the last chunk exactly when it went in before an
      earlier one, or when the chunks before the last hold exactly one line. */
  lemma InsertedExtends(cs: seq<seq<string>>)
    requires |cs| > 0
    ensures var p := cs[..|cs| - 1];
            Inserted(cs) <==> Inserted(p) || (|p| >= 1 && |Concat(p)| == 1)
  {
    var p := cs[..|cs| - 1];
    if Inserted(cs) {
      var k :| 1 <= k < |cs| && |Concat(cs[..k])| == 1;
      if k < |p| {
        assert cs[..k] == p[..k];
      } else {
        assert cs[..k] == p;
      }
    }
    if Inserted(p) {
      var k :| 1 <= k < |p| && |Concat(p[..k])| == 1;
      assert cs[..k] == p[..k];
    }
    if |p| >= 1 && |Concat(p)| == 1 {
      assert cs[..|p|] == p;
    }
  }

  lemma InsertAfterFirst(a: seq<string>, b: seq<string>, rr: string)
    requires |a| >= 1
    ensures (a[..1] + [rr] + a[1..]) + b == (a + b)[..1] + [rr] + (a + b)[1..]
  {
    assert (a + b)[..1] == a[..1];
    assert (a + b)[1..] == a[1..] + b;
  }

  /** A chunk of two lines is never split by the inserted line. */
  lemma AssembleKeepsPair(cs: seq<seq<string>>, rr: string, k: nat)
    requires k < |cs| && |cs[k]| == 2
    ensures exists o :: 0 <= o && o + 1 < |Assemble(cs, rr)|
                        && Assemble(cs, rr)[o] == cs[k][0] && Assemble(cs, rr)[o + 1] == cs[k][1]
  {
    var f := Concat(cs);
    var p := |Concat(cs[..k])|;
    ConcatAt(cs, k);
    AssembleShape(cs, rr);
    var r := Assemble(cs, rr);
    if Inserted(cs) {
      var q :| 1 <= q < |cs| && |Concat(cs[..q])| == 1;
      if k < q {
        ConcatGrows(cs, k + 1, q);
        assert false;
      }
      ConcatGrows(cs, q, k);
      assert r[p + 1] == f[p] && r[p + 2] == f[p + 1];
    } else {
      assert r[p] == f[p] && r[p + 1] == f[p + 1];
    }
  }

  /** No line of the relayed message is a Route header. */
  lemma RelayDropsRoutes(hs: seq<string>, cfg: Config, client: Address)
    ensures forall i :: 0 <= i < |Relay(hs, cfg, client)| ==> !IsRoute(Relay(hs, cfg, client)[i])
  {
    var cs := Chunks(hs, cfg, client);
    forall k | 0 <= k < |cs| ensures forall i :: 0 <= i < |cs[k]| ==> !IsRoute(cs[k][i]) {
      EmitHasNoRoute(hs[k], cfg, client);
    }
    ConcatHasNoRoute(cs);
    RecordRouteIsNoRoute(cfg);
    AssembleHasNoRoute(cs, RecordRoute(cfg));
  }

  lemma AssembleHasNoRoute(cs: seq<seq<string>>, rr: string)
    requires !IsRoute(rr) && forall i :: 0 <= i < |Concat(cs)| ==> !IsRoute(Concat(cs)[i])
    ensures forall i :: 0 <= i < |Assemble(cs, rr)| ==> !IsRoute(Assemble(cs, rr)[i])
  {
    AssembleShape(cs, rr);
    var f := Concat(cs);
    var r := Assemble(cs, rr);
    forall i | 0 <= i < |r| ensures !IsRoute(r[i]) {
      if Inserted(cs) {
        if i == 0 { assert r[i] == f[0]; }
        else if i == 1 { assert r[i] == rr; }
        else { assert r[i] == f[i - 1]; }
      } else {
        assert r[i] == f[i];
      }
    }
  }

  lemma {:induction false} ConcatHasNoRoute(cs: seq<seq<string>>)
    requires forall k :: 0 <= k < |cs| ==> forall i :: 0 <= i < |cs[k]| ==> !IsRoute(cs[k][i])
    ensures forall i :: 0 <= i < |Concat(cs)| ==> !IsRoute(Concat(cs)[i])
    decreases |cs|
  {
    if |cs| > 0 {
      ConcatHasNoRoute(cs[..|cs| - 1]);
    }
  }

  lemma EmitHasNoRoute(h: string, cfg: Config, client: Address)
    ensures forall i :: 0 <= i < |Emit(h, cfg, client)| ==> !IsRoute(Emit(h, cfg, client)[i])
  {
    if IsVia(h) {
      var m := MarkReceived(h, client, RportBare(h));
      MarkedIsVia(h, client, RportBare(h));
      match Branch(h)
      case Some(b) =>
        BranchViaIsNoRoute(cfg, b);
        assert Emit(h, cfg, client) == [BranchVia(cfg, b), m];
      case None =>
        assert Emit(h, cfg, client) == [m];
    } else if !IsRoute(h) {
      assert Emit(h, cfg, client) == [h];
    }
  }

  /** The NAT-marked Via still starts with the letter of `Via`, so it is no Route. */
  lemma MarkedIsVia(h: string, client: Address, bare: bool)
    requires IsVia(h)
    ensures !IsRoute(MarkReceived(h, client, bare))
  {
    if HasName(h, "Via") { LowerHeadOfName(h, "Via"); } else { LowerHeadOfName(h, "v"); }
    MarkedHead(h, client, bare);
    var m := MarkReceived(h, client, bare);
    NotNamed(m, "Route");
  }

  /** Marking a Via that does not start with `r` keeps its first character. */
  lemma MarkedHead(h: string, client: Address, bare: bool)
    requires |h| > 0 && h[0] != 'r'
    ensures |MarkReceived(h, client, bare)| > 0 && MarkReceived(h, client, bare)[0] == h[0]
  {
    if bare {
      assert !StartsWith(h, "rport") by { if |h| >= 5 { assert h[..5][0] == h[0]; } }
      ReplaceKeepsHead(h, "rport", NatParams(client));
    } else {
      assert (h + ";received=" + client.ip)[0] == h[0];
    }
  }

  lemma BranchViaIsNoRoute(cfg: Config, b: string)
    ensures !IsRoute(BranchVia(cfg, b))
  {
    var v := BranchVia(cfg, b);
    assert v[0] == 'V';
    NotNamed(v, "Route");
  }

  lemma RecordRouteIsNoRoute(cfg: Config)
    ensures !IsRoute(RecordRoute(cfg))
  {
    var rr := RecordRoute(cfg);
    assert rr[..5] == "Recor";
    assert Lower(rr[1]) != Lower("Route"[1]);
  }

  /** The relayed message is the output of its lines in order, RECORD_ROUTE at
      index 1 when it is inserted, and RECORD_ROUTE is inserted at most once. */
  lemma RelayLayout(hs: seq<string>, cfg: Config, client: Address)
    ensures var cs := Chunks(hs, cfg, client); Inserted(cs) ==> |Concat(cs)| >= 1
    ensures var cs := Chunks(hs, cfg, client);
            Relay(hs, cfg, client) ==
              if Inserted(cs) then Concat(cs)[..1] + [RecordRoute(cfg)] + Concat(cs)[1..] else Concat(cs)
  {
    var cs := Chunks(hs, cfg, client);
    AssembleShape(cs, RecordRoute(cfg));
  }

  /** The usual case: when line 0 is an ordinary request or status line and a
      header follows, it goes out first and RECORD_ROUTE right after it. */
  lemma RelayRecordRouteSecond(hs: seq<string>, cfg: Config, client: Address)
    requires |hs| >= 2 && !IsVia(hs[0]) && !IsRoute(hs[0])
    ensures var r := Relay(hs, cfg, client);
            |r| >= 2 && r[0] == hs[0] && r[1] == RecordRoute(cfg)
  {
    var rr := RecordRoute(cfg);
    var cs := Chunks(hs, cfg, client);
    assert cs[0] == [hs[0]];
    assert Concat(cs[..1]) == [hs[0]] by {
      assert cs[..1][..0] == [];
    }
    assert Inserted(cs) by {
      assert |Concat(cs[..1])| == 1;
    }
    AssembleShape(cs, rr);
    var c := Concat(cs);
    assert |c| >= 1 && c[0] == hs[0] by {
      ConcatAt(cs, 0);
      assert cs[..0] == [];
    }
    assert Relay(hs, cfg, client) == c[..1] + [rr] + c[1..];
  }

  /** Every Via with a `;branch=` goes out NAT-marked and immediately preceded by
      the proxy's own Via carrying the same branch. */
  lemma RelayPrefixesBranchVia(hs: seq<string>, k: nat, cfg: Config, client: Address)
    requires k < |hs| && IsVia(hs[k]) && Branch(hs[k]).Some?
    ensures exists o :: 0 <= o && o + 1 < |Relay(hs, cfg, client)|
                        && Relay(hs, cfg, client)[o] == BranchVia(cfg, Branch(hs[k]).value)
                        && Relay(hs, cfg, client)[o + 1] == MarkReceived(hs[k], client, RportBare(hs[k]))
  {
    var cs := Chunks(hs, cfg, client);
    var pair := [BranchVia(cfg, Branch(hs[k]).value), MarkReceived(hs[k], client, RportBare(hs[k]))];
    assert cs[k] == pair;
    AssembleKeepsPair(cs, RecordRoute(cfg), k);
    var o :| 0 <= o && o + 1 < |Assemble(cs, RecordRoute(cfg))|
             && Assemble(cs, RecordRoute(cfg))[o] == cs[k][0] && Assemble(cs, RecordRoute(cfg))[o + 1] == cs[k][1];
    assert Relay(hs, cfg, client) == Assemble(cs, RecordRoute(cfg));
  }
}
