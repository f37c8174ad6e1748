/** Header-line recognition and value extraction of the proxy (the compiled
    patterns of `SIPProxy` in sipproxy.py), each pattern written as the string
    predicate or function it amounts to. A message is the list of its
    CRLF-separated lines; line 0 is the request or status line. */
module Headers {
  import opened Text

  /** `^<name>\s*:` with `re.I`: the line starts with `name` (ASCII case ignored),
      then optional white space, then a colon. */
  predicate HasName(line: string, name: string)
  {
    && |name| <= |line|
    && SameIgnoringCase(line[..|name|], name)
    && var rest := SkipSpaces(line[|name|..]); |rest| > 0 && rest[0] == ':'
  }

  /** The text after the colon of a header recognised by `HasName`. */
  function AfterColon(line: string, name: string): string
    requires HasName(line, name)
  {
    SkipSpaces(line[|name|..])[1..]
  }

  predicate IsTo(line: string) { HasName(line, "To") }
  predicate IsVia(line: string) { HasName(line, "Via") || HasName(line, "v") }
  predicate IsRoute(line: string) { HasName(line, "Route") }
  predicate IsContact(line: string) { HasName(line, "Contact") }

  /** The Content-Length pattern as the source writes it, `^Content-Length:\s*:`:
      it asks for a second colon, so an ordinary `Content-Length: 12` line does not match. */
  predicate IsContentLengthAsWritten(line: string) { HasName(line, "Content-Length:") }

  // ---------------------------------------------------------------------------
  // SIP URIs: `sip:([^@]*)@([^;>$]*)`, searched anywhere in a line

  datatype Uri = Uri(user: string, host: string)

  const HostStops: set<char> := {';', '>', '$'}

  /** The `user@host` identity a URI names. */
  function Identity(u: Uri): string
  {
    u.user + "@" + u.host
  }

  /** A URI starts at index `i`: `sip:` there and some `@` after it. */
  predicate UriAt(line: string, i: nat)
  {
    OccursAt(line, "sip:", i) && exists c :: i + 4 <= c < |line| && line[c] == '@'
  }

  /** The leftmost SIP URI of a line. The user part runs to the first `@` after
      `sip:`, the host part from there to the first `;`, `>` or `$` or the end. */
  function SipUri(line: string): (r: Option<Uri>)
    ensures r.Some? ==> '@' !in r.value.user
    ensures r.Some? ==> forall i :: 0 <= i < |r.value.host| ==> r.value.host[i] !in HostStops
  {
    match Find(line, "sip:")
    case None => None
    case Some(i) =>
      var rest := line[i + 4..];
      match Find(rest, "@")
      case None => None
      case Some(j) =>
        assert '@' !in rest[..j] by {
          forall k | 0 <= k < j ensures rest[k] != '@' {
            assert !OccursAt(rest, "@", k);
          }
        }
        Some(Uri(rest[..j], TakeUntil(rest[j + 1..], HostStops)))
  }

  /** There is no URI exactly when no `sip:` of the line has an `@` after it. */
  lemma SipUriAbsent(line: string)
    ensures SipUri(line).None? <==> forall i :: 0 <= i ==> !UriAt(line, i)
  {
    match Find(line, "sip:")
    case None =>
      assert SipUri(line).None?;
    case Some(i) =>
      var rest := line[i + 4..];
      match Find(rest, "@")
      case None =>
        assert SipUri(line).None?;
        forall k | 0 <= k && UriAt(line, k) ensures false {
          var c :| k + 4 <= c < |line| && line[c] == '@';
          assert i <= k;
          assert rest[c - i - 4] == '@';
          assert OccursAt(rest, "@", c - i - 4);
        }
      case Some(j) =>
        assert rest[j] == '@' by { assert OccursAt(rest, "@", j); }
        assert line[i + 4 + j] == '@';
        assert OccursAt(line, "sip:", i);
        assert UriAt(line, i);
        assert SipUri(line).Some?;
  }

  /** The URI found is the leftmost one, and it is spelled out in the line where it starts. */
  lemma SipUriLeftmost(line: string)
    requires SipUri(line).Some?
    ensures exists i :: 0 <= i && UriAt(line, i) && (forall j :: 0 <= j < i ==> !UriAt(line, j))
                        && OccursAt(line, "sip:" + Identity(SipUri(line).value), i)
  {
    var i := Find(line, "sip:").value;
    UriStartsAtFirstSip(line);
    UriSpelledAtFirstSip(line);
    assert UriAt(line, i) && (forall j :: 0 <= j < i ==> !UriAt(line, j))
           && OccursAt(line, "sip:" + Identity(SipUri(line).value), i);
  }

  /** A URI starts at the first `sip:` and nowhere before it. */
  lemma UriStartsAtFirstSip(line: string)
    requires SipUri(line).Some?
    ensures var i := Find(line, "sip:").value;
            UriAt(line, i) && forall k :: 0 <= k < i ==> !UriAt(line, k)
  {
    var i := Find(line, "sip:").value;
    var rest := line[i + 4..];
    var j := Find(rest, "@").value;
    assert rest[j] == '@' by { assert OccursAt(rest, "@", j); }
    assert line[i + 4 + j] == '@';
    assert UriAt(line, i);
    forall k | 0 <= k < i ensures !UriAt(line, k) {
      assert !OccursAt(line, "sip:", k);
    }
  }

  /** The found URI is spelled `sip:user@host` from the first `sip:` on. */
  lemma UriSpelledAtFirstSip(line: string)
    requires SipUri(line).Some?
    ensures OccursAt(line, "sip:" + Identity(SipUri(line).value), Find(line, "sip:").value)
  {
    var i := Find(line, "sip:").value;
    var j := Find(line[i + 4..], "@").value;
    var user := line[i + 4..i + 4 + j];
    var host := TakeUntil(line[i + 4 + j + 1..], HostStops);
    assert i + 4 + j < |line| && line[i + 4 + j] == '@' && SipUri(line) == Some(Uri(user, host)) by {
      UriParts(line, i, j);
    }
    assert Identity(SipUri(line).value) == user + "@" + host;
    SpelledAt(line, "sip:", i, j, host);
  }

  /** The parts of the found URI, read off the line itself. */
  lemma UriParts(line: string, i: nat, j: nat)
    requires Find(line, "sip:") == Some(i) && Find(line[i + 4..], "@") == Some(j)
    ensures i + 4 + j < |line| && line[i + 4 + j] == '@'
    ensures SipUri(line) == Some(Uri(line[i + 4..i + 4 + j], TakeUntil(line[i + 4 + j + 1..], HostStops)))
  {
    var rest := line[i + 4..];
    assert rest[j] == '@' by { assert OccursAt(rest, "@", j); }
    assert SipUri(line) == Some(Uri(rest[..j], TakeUntil(rest[j + 1..], HostStops)));
    assert rest[..j] == line[i + 4..i + 4 + j];
    assert rest[j + 1..] == line[i + 4 + j + 1..];
  }

  lemma SpelledAt(line: string, p: string, i: nat, j: nat, host: string)
    requires OccursAt(line, p, i)
    requires i + |p| + j < |line| && line[i + |p| + j] == '@'
    requires StartsWith(line[i + |p| + j + 1..], host)
    ensures OccursAt(line, p + (line[i + |p|..i + |p| + j] + "@" + host), i)
  {
    var n := |p| + j + 1 + |host|;
    assert line[i..i + n] == line[i..i + |p|] + line[i + |p|..i + |p| + j] + [line[i + |p| + j]]
                             + line[i + |p| + j + 1..i + n];
  }

  /** The first present value of a sequence of optional values. */
  function FirstSome(vs: seq<Option<string>>): (r: Option<string>)
    ensures r.None? <==> forall k :: 0 <= k < |vs| ==> vs[k].None?
    ensures r.Some? ==> exists k :: 0 <= k < |vs| && vs[k] == r && forall j :: 0 <= j < k ==> vs[j].None?
    decreases |vs|
  {
    if |vs| == 0 then None
    else if vs[0].Some? then vs[0]
    else
      var r := FirstSome(vs[1..]);
      assert forall k :: 1 <= k < |vs| ==> vs[k] == vs[1..][k - 1];
      if r.Some? then
        var k :| 0 <= k < |vs[1..]| && vs[1..][k] == r && forall j :: 0 <= j < k ==> vs[1..][j].None?;
        assert vs[k + 1] == r;
        r
      else
        r
  }

  /** A present value preceded only by absent ones is the first present value. */
  lemma FirstSomeAt(vs: seq<Option<string>>, i: nat)
    requires i < |vs| && vs[i].Some? && forall j :: 0 <= j < i ==> vs[j].None?
    ensures FirstSome(vs) == vs[i]
  {
  }

  /** The identity a line named `name` gives, when it holds a SIP URI. */
  function ClientIn(line: string, name: string): (r: Option<string>)
    ensures r.Some? <==> HasName(line, name) && SipUri(line).Some?
  {
    if HasName(line, name) then
      match SipUri(line)
      case Some(u) => Some(Identity(u))
      case None => None
    else None
  }

  function ClientsIn(hs: seq<string>, name: string): (vs: seq<Option<string>>)
    ensures |vs| == |hs| && forall k :: 0 <= k < |hs| ==> vs[k] == ClientIn(hs[k], name)
  {
    seq(|hs|, k requires 0 <= k < |hs| => ClientIn(hs[k], name))
  }

  /** `find_client`: the identity of the first line named `name` that holds a SIP URI. */
  function ClientOf(hs: seq<string>, name: string): Option<string>
  {
    FirstSome(ClientsIn(hs, name))
  }

  /** `find_client` returns the identity of the first line that gives one, and None
      exactly when no line does. */
  lemma ClientOfFirst(hs: seq<string>, name: string)
    ensures var r := ClientOf(hs, name);
            && (r.None? <==> forall k :: 0 <= k < |hs| ==> ClientIn(hs[k], name).None?)
            && (r.Some? ==> exists k :: 0 <= k < |hs| && ClientIn(hs[k], name) == r
                                        && forall j :: 0 <= j < k ==> ClientIn(hs[j], name).None?)
  {
    var vs := ClientsIn(hs, name);
    var r := FirstSome(vs);
    if r.Some? {
      var k :| 0 <= k < |vs| && vs[k] == r && forall j :: 0 <= j < k ==> vs[j].None?;
      assert ClientIn(hs[k], name) == r;
    }
  }

  // ---------------------------------------------------------------------------
  // `(.*)$` groups: Call-ID and Expires headers

  /** `(.*)$` applied to the start of `s`: `.` stops at a line feed and `$` matches at
      the end or just before a final line feed. */
  function RestOfLine(s: string): (r: Option<string>)
    ensures r.Some? <==> forall i :: 0 <= i < |s| - 1 ==> s[i] != '\n'
    ensures r.Some? ==> '\n' !in r.value && (s == r.value || s == r.value + "\n")
  {
    if '\n' !in s then Some(s)
    else if s[|s| - 1] == '\n' && '\n' !in s[..|s| - 1] then Some(s[..|s| - 1])
    else None
  }

  /** `^<name>\s*:\s*(.*)$` matched against a line. */
  function HeaderValue(line: string, name: string): Option<string>
  {
    if HasName(line, name) then RestOfLine(SkipSpaces(AfterColon(line, name))) else None
  }

  function ValuesIn(hs: seq<string>, name: string): (vs: seq<Option<string>>)
    ensures |vs| == |hs| && forall k :: 0 <= k < |hs| ==> vs[k] == HeaderValue(hs[k], name)
  {
    seq(|hs|, k requires 0 <= k < |hs| => HeaderValue(hs[k], name))
  }

  /** The Call-ID pattern applied to one line. */
  function CallIdIn(line: string): Option<string>
  {
    HeaderValue(line, "Call-ID")
  }

  function CallIdsIn(hs: seq<string>): (vs: seq<Option<string>>)
    ensures |vs| == |hs| && forall k :: 0 <= k < |hs| ==> vs[k] == CallIdIn(hs[k])
  {
    seq(|hs|, k requires 0 <= k < |hs| => CallIdIn(hs[k]))
  }

  /** `call_id`: the value of the first line the Call-ID pattern matches. */
  function CallIdOf(hs: seq<string>): (r: Option<string>)
    ensures r.None? <==> forall k :: 0 <= k < |hs| ==> CallIdIn(hs[k]).None?
    ensures r.Some? ==> exists k :: 0 <= k < |hs| && CallIdIn(hs[k]) == r
                                    && forall j :: 0 <= j < k ==> CallIdIn(hs[j]).None?
  {
    FirstSome(CallIdsIn(hs))
  }

  /** `expires=([^;$]*)` searched in a line (a Contact parameter). */
  function ExpiresParam(line: string): Option<string>
  {
    match Find(line, "expires=")
    case None => None
    case Some(i) => Some(TakeUntil(line[i + 8..], {';', '$'}))
  }

  /** `;branch=([^;]*)` searched in a line. */
  function Branch(line: string): Option<string>
  {
    match Find(line, ";branch=")
    case None => None
    case Some(i) => Some(TakeUntil(line[i + 8..], {';'}))
  }

  /** `;rport$|;rport;` searched in a line: a bare `rport` parameter last or followed
      by another parameter (`$` also matches before a final line feed). */
  predicate RportBare(line: string)
  {
    EndsWith(line, ";rport") || EndsWith(line, ";rport\n") || Contains(line, ";rport;")
  }

  // ---------------------------------------------------------------------------
  // The request or status line

  /** `request and 'SIP/2.0' in request`: the dispatcher's admission test. */
  predicate IsSipLine(request: string)
  {
    |request| > 0 && Contains(request, "SIP/2.0")
  }

  /** `SIP/2.0` where the pattern's `.` stands for any character but a line feed. */
  predicate VersionPrefix(request: string)
  {
    |request| >= 7 && request[..5] == "SIP/2" && request[5] != '\n' && request[6] == '0'
  }

  /** `^SIP/2.0 ([^ ]*)`: a status line. */
  predicate IsStatusLine(request: string)
  {
    VersionPrefix(request) && |request| >= 8 && request[7] == ' '
  }

  /** `^SIP/2.0\s+(\d+)`: the status code of a status line. */
  function StatusCode(request: string): (r: Option<string>)
    ensures r.Some? ==> |r.value| > 0 && forall i :: 0 <= i < |r.value| ==> IsDigit(r.value[i])
    ensures r.Some? <==> VersionPrefix(request) && |request| > 7 && IsSpace(request[7])
                         && var rest := SkipSpaces(request[7..]); |rest| > 0 && IsDigit(rest[0])
  {
    if VersionPrefix(request) && |request| > 7 && IsSpace(request[7]) then
      var digits := TakeDigits(SkipSpaces(request[7..]));
      if |digits| > 0 then Some(digits) else None
    else None
  }

  /** The code of `SIP/2.0`, a run of white space, a run of digits and any text not
      continuing the digits is exactly that run: `\s+` and `\d+` are both greedy. */
  lemma StatusCodeOf(version: string, spaces: string, digits: string, rest: string)
    requires |version| == 7 && VersionPrefix(version)
    requires |spaces| > 0 && forall i :: 0 <= i < |spaces| ==> IsSpace(spaces[i])
    requires |digits| > 0 && forall i :: 0 <= i < |digits| ==> IsDigit(digits[i])
    requires |rest| == 0 || !IsDigit(rest[0])
    ensures StatusCode(version + spaces + digits + rest) == Some(digits)
  {
    var request := version + spaces + digits + rest;
    assert VersionPrefix(request) by { assert request[..7] == version; }
    assert request[7] == spaces[0];
    assert request[7..] == spaces + (digits + rest);
    SkipSpacesOver(spaces, digits + rest);
    TakeDigitsOf(digits, rest);
  }

  /** A greedy `\s*` runs over a run of white space up to a non-space. */
  lemma {:induction false} SkipSpacesOver(spaces: string, t: string)
    requires forall i :: 0 <= i < |spaces| ==> IsSpace(spaces[i])
    requires |t| > 0 && !IsSpace(t[0])
    ensures SkipSpaces(spaces + t) == t
    decreases |spaces|
  {
    if |spaces| == 0 {
      assert spaces + t == t;
    } else {
      assert (spaces + t)[1..] == spaces[1..] + t;
      SkipSpacesOver(spaces[1..], t);
    }
  }

  /** `\d+` takes a run of digits up to a non-digit. */
  lemma {:induction false} TakeDigitsOf(digits: string, rest: string)
    requires forall i :: 0 <= i < |digits| ==> IsDigit(digits[i])
    requires |rest| == 0 || !IsDigit(rest[0])
    ensures TakeDigits(digits + rest) == digits
    decreases |digits|
  {
    if |digits| == 0 {
      assert digits + rest == rest;
    } else {
      assert (digits + rest)[1..] == digits[1..] + rest;
      TakeDigitsOf(digits[1..], rest);
      assert digits == [digits[0]] + digits[1..];
    }
  }

  /** `^(SUBSCRIBE|PUBLISH|NOTIFY)`. */
  predicate IsNotification(request: string)
  {
    StartsWith(request, "SUBSCRIBE") || StartsWith(request, "PUBLISH") || StartsWith(request, "NOTIFY")
  }

  // ---------------------------------------------------------------------------
  // Facts

  /** The identity of a URI splits back at its first `@` into user and host. */
  lemma IdentitySplits(u: Uri)
    requires '@' !in u.user
    ensures Find(Identity(u), "@") == Some(|u.user|)
    ensures Identity(u)[..|u.user|] == u.user && Identity(u)[|u.user| + 1..] == u.host
  {
    var id := Identity(u);
    assert OccursAt(id, "@", |u.user|);
    forall j | 0 <= j < |u.user| ensures !OccursAt(id, "@", j) {
      assert id[j] == u.user[j];
    }
  }

  /** A line whose first character is not a letter of `name`'s first letter (either
      case) is not a header named `name`. */
  lemma NotNamed(line: string, name: string)
    requires |line| > 0 && |name| > 0 && Lower(line[0]) != Lower(name[0])
    ensures !HasName(line, name)
  {
    if |name| <= |line| {
      assert line[..|name|][0] == line[0];
    }
  }

  /** The same at any index inside the name. */
  lemma NotNamedAt(line: string, name: string, i: nat)
    requires i < |line| && i < |name| && Lower(line[i]) != Lower(name[i])
    ensures !HasName(line, name)
  {
    if |name| <= |line| {
      assert line[..|name|][i] == line[i];
    }
  }

  /** A line not starting with `c` or `C` is no Call-ID line. */
  lemma NotCallId(line: string)
    requires |line| > 0 && Lower(line[0]) != 'c'
    ensures CallIdIn(line).None?
  {
    NotNamed(line, "Call-ID");
  }

  lemma LowerHeadOfName(line: string, name: string)
    requires HasName(line, name) && |name| > 0
    ensures |line| > 0 && Lower(line[0]) == Lower(name[0])
  {
    assert line[..|name|][0] == line[0];
  }

  /** A To line is none of the other headers the builders look for. */
  lemma ToIsNoOther(line: string)
    requires IsTo(line)
    ensures !IsVia(line) && !IsContentLengthAsWritten(line) && !IsRoute(line)
  {
    LowerHeadOfName(line, "To");
    NotNamed(line, "Via");
    NotNamed(line, "v");
    NotNamed(line, "Content-Length:");
    NotNamed(line, "Route");
  }

  /** A Via line is neither a To nor a Route line. */
  lemma ViaIsNoOther(line: string)
    requires IsVia(line)
    ensures !IsTo(line) && !IsRoute(line)
  {
    if HasName(line, "Via") { LowerHeadOfName(line, "Via"); } else { LowerHeadOfName(line, "v"); }
    NotNamed(line, "To");
    NotNamed(line, "Route");
  }

  /** A status line starts with `SI`. */
  lemma StatusLineHead(line: string)
    requires IsStatusLine(line)
    ensures line[0] == 'S' && line[1] == 'I'
  {
    assert line[..5][0] == line[0] && line[..5][1] == line[1];
  }

  /** Replacing line 0 by another line that is no Call-ID line keeps the Call-ID. */
  lemma CallIdOfNewHead(hs: seq<string>, x: string)
    requires |hs| > 0 && CallIdIn(hs[0]).None? && CallIdIn(x).None?
    ensures CallIdOf(hs[0 := x]) == CallIdOf(hs)
  {
    assert CallIdsIn(hs[0 := x]) == CallIdsIn(hs);
  }

  /** A status line `SIP/2.0 ...` is none of the headers the builders rewrite. */
  lemma StatusLineIsNoHeader(code: string)
    ensures !IsTo("SIP/2.0 " + code) && !IsVia("SIP/2.0 " + code)
    ensures !IsContentLengthAsWritten("SIP/2.0 " + code) && !IsRoute("SIP/2.0 " + code)
  {
    var l := "SIP/2.0 " + code;
    assert l[0] == 'S';
    NotNamed(l, "To");
    NotNamed(l, "Via");
    NotNamed(l, "v");
    NotNamed(l, "Content-Length:");
    NotNamed(l, "Route");
  }

  /** Appending text to a recognised header keeps it recognised. */
  lemma HasNameExtended(line: string, name: string, t: string)
    requires HasName(line, name)
    ensures HasName(line + t, name)
  {
    var l := line + t;
    assert l[..|name|] == line[..|name|];
    var rest := line[|name|..];
    assert l[|name|..] == rest + t;
    SkipSpacesExtended(rest, t);
  }

  lemma {:induction false} SkipSpacesExtended(s: string, t: string)
    requires |SkipSpaces(s)| > 0
    ensures SkipSpaces(s + t) == SkipSpaces(s) + t
    decreases |s|
  {
    if IsSpace(s[0]) {
      assert (s + t)[1..] == s[1..] + t;
      SkipSpacesExtended(s[1..], t);
    }
  }

  /** A plain `Content-Length: <digits>` line does not match the pattern as written:
      after `Content-Length:` and the white space comes a digit or nothing, never a colon. */
  lemma PlainContentLengthIgnored(digits: string)
    requires forall i :: 0 <= i < |digits| ==> IsDigit(digits[i])
    ensures !IsContentLengthAsWritten("Content-Length: " + digits)
  {
    var l := "Content-Length: " + digits;
    assert |"Content-Length:"| == 15;
    assert l[15..] == " " + digits;
    assert (" " + digits)[1..] == digits;
    var rest := SkipSpaces(l[15..]);
    assert rest == SkipSpaces(digits);
    if |digits| > 0 {
      assert IsDigit(digits[0]);
      assert SkipSpaces(digits) == digits;
      assert rest[0] != ':';
    } else {
      assert rest == [];
    }
  }
}
