# SIP proxy registrar: a Dafny model

This project models the message engine of a small SIP registrar and proxy. Each
UDP datagram that reaches the proxy is decoded, split into CRLF-separated lines
and handled by one `SIPProxy` request handler of `sipproxy.py`.

The handler works over two pieces of module state:

- `registry` maps a `user@host` identity to its socket, contact host, client address and validity time.
- `calling` holds the Call-IDs of the calls in progress.

What the handler does, by message kind:

- REGISTER enrols or removes an identity.
- INVITE and the other requests are admitted or refused, in a fixed order of checks.
- Forwarded messages are rebuilt:
  - the proxy's Record-Route goes in before the next original line, once exactly one line has been emitted: the test runs at the top of each iteration. So it never goes in when the first line to emit anything is a Via carrying `;branch=`, which emits two lines at once, whether that Via is line 0 or follows Route lines. Nor does it go in when the only line emitted so far came from the last original line;
  - a Via carrying `;branch=` is preceded by the proxy's own Via with that branch, and every Via is marked with the sender's address;
  - Route lines are dropped.
- Responses go back to the sender with the To line tagged and every Via marked with the sender's address.

The earlier `sip_proxy.py` is modelled too. It only answers REGISTER, and it uses a simpler response builder.

The model has six modules:

- `Text`: the Python string operations the proxy relies on, such as `in`, `find`, `replace`, `int()` with its own white-space stripping, and `'%d'`.
- `Headers`: every compiled pattern of `SIPProxy`, written as a string predicate or function.
  - `find_client` and `call_id` are written as first-match scans.
- `Rewrite`: what `response` and `resend` produce, as functions of the lines.
- `Engine`: the handler as a function from a `State` to a new state. It covers `registry`, `calling`, the datagrams sent and the events logged, and holds the lemmas about `handle`.
- `Proxy`: the handler as the source writes it.
  - The class `Store` holds the module state.
  - The class `Handler` holds `self.headers`, `self.socket` and `self.client_address`.
  - Its methods update those fields step by step, as the source does. Each method is proved to compute the matching `Engine` or `Rewrite` function.
- `EarlyProxy`: `sip_proxy.py`, as functions with lemmas, plus the classes `Registrar` and `Handler` with loops proved against those functions.

How external effects are modelled:

- Sending a datagram appends a `Datagram(lines, socket, destination)` to `sent`.
- `time()` becomes the integer parameter `now`.
- `settings.SIP_IP` and `settings.SIP_PORT` become a `Config` parameter.
- `logging.info` becomes an `Event` appended to `log`.
- A datagram that does not decode as UTF-8 is given as `None`.

A Python exception raised while a handler runs ends that handler. This happens with an unbound local in `sip_register`, or with `int()` on a value that is not an integer. The model has an explicit outcome for it, `Failed` in `Engine` and `None` in `EarlyProxy`: nothing is stored and nothing is sent. There is no precondition for it, since in every such case the exception comes before the first change to the state.

`sip_proxy.py` decodes the datagram at line 43 without a `try`, so an undecodable datagram raises `UnicodeDecodeError` in its `handle`. That too ends the handler before any change, and `EarlyProxy` takes such a datagram as `None` as well.

## Model

| member | source | states |
|---|---|---|
| Text.Find | sipproxy.py:27-30 | the index is the first place where the literal occurs; the result is None exactly when it occurs nowhere |
| Text.TakeUntil | sipproxy.py:27-29 | the longest prefix holding none of the stop characters of a `[^...]*` group: it is a prefix, it holds no stop character, and the next character is a stop character |
| Text.TakeDigits | sipproxy.py:25 | the longest prefix of ASCII digits of a `\d+` group |
| Text.ParseInt | sipproxy.py:91 | `int()` accepts exactly a text that, stripped of the white space `int()` skips, is an optional sign and 1 to 4300 ASCII digits, and then gives their signed value (also line 94) |
| Text.StripIntSpace | sipproxy.py:91 | the stripped text starts and ends with no character `int()` skips: tab, line feed, vertical tab, form feed, carriage return, space, or non-ASCII white space (also line 94) |
| Text.SeparatorRejected | sipproxy.py:91 | digits followed by one of U+001C to U+001F make `int()` raise, though `\s` counts that character as white space (also line 94) |
| Text.ParseDecimal | sipproxy.py:68 | `int('%d' % n) == n` for every natural `n` of at most 4300 digits: the port written into `rport=` reads back as the port |
| Text.DecimalValue | sipproxy.py:68 | the digits `'%d'` writes have the value of the number |
| Text.ReplaceInserts | sipproxy.py:67-69 | when `rport` occurs in a Via line, `replace` leaves the replacement text in the line |
| Headers.SipUri | sipproxy.py:27 | the user part of the found URI holds no `@`, and its host part holds none of `;`, `>`, `$` |
| Headers.SipUriAbsent | sipproxy.py:27 | there is no URI exactly when no `sip:` in the line has an `@` after it |
| Headers.SipUriLeftmost | sipproxy.py:27 | the URI found starts at the leftmost place where one starts, and `sip:user@host` is spelled out there |
| Headers.UriStartsAtFirstSip | sipproxy.py:27 | when a URI is found, the first `sip:` of the line starts one, and no earlier position does |
| Headers.UriSpelledAtFirstSip | sipproxy.py:27 | the found URI, written back as `sip:user@host`, is spelled out at the first `sip:` of the line |
| Headers.UriParts | sipproxy.py:27 | the user part is the text between the first `sip:` and the first `@` after it, and the host part is read from just after that `@` |
| Headers.IdentitySplits | sipproxy.py:51 | the `user@host` identity splits back, at its first `@`, into the user and host parts |
| Headers.FirstSome | sipproxy.py:48-51 | the first present value, preceded only by absent ones; None exactly when every value is absent |
| Headers.FirstSomeAt | sipproxy.py:48-51 | a present value with only absent values before it is the one a first-match scan returns |
| Headers.ClientIn | sipproxy.py:49-51 | a line gives an identity exactly when it matches the direction's name pattern and holds a SIP URI |
| Headers.ClientOfFirst | sipproxy.py:47-51 | `find_client`: the identity of the first matching line holding a URI; None exactly when no line is such a line |
| Headers.RestOfLine | sipproxy.py:20 | a `(.*)$` group matches exactly when no line feed occurs before the last character, and is then the whole text less a final line feed (also line 23) |
| Headers.CallIdOf | sipproxy.py:53-56 | `call_id`: the value of the first line the Call-ID pattern matches; None exactly when no line matches |
| Headers.StatusCode | sipproxy.py:25 | a code exists exactly when the line starts with `SIP/2.0`, white space and a digit; it is a non-empty run of ASCII digits |
| Headers.StatusCodeOf | sipproxy.py:25 | for `SIP/2.0`, white space, a run of digits and text not starting with a digit, the code is exactly that run |
| Headers.SkipSpacesOver | sipproxy.py:25 | a greedy `\s` run stops at the first character that is not white space |
| Headers.TakeDigitsOf | sipproxy.py:25 | a greedy `\d+` takes a run of digits up to the first non-digit |
| Headers.NotNamed | sipproxy.py:14-23 | a line whose first letter differs, ignoring case, from the first letter of a header name does not match that name's pattern |
| Headers.NotNamedAt | sipproxy.py:14-23 | the same holds for a letter at any position of the name |
| Headers.NotCallId | sipproxy.py:20 | a line that does not start with `c` or `C` gives no Call-ID |
| Headers.LowerHeadOfName | sipproxy.py:14-23 | a line matching a name pattern starts with the name's first letter, ignoring case |
| Headers.ToIsNoOther | sipproxy.py:15-21 | a To line is neither a Via, a Content-Length nor a Route line |
| Headers.ViaIsNoOther | sipproxy.py:15-21 | a Via line is neither a To nor a Route line |
| Headers.StatusLineHead | sipproxy.py:24 | a line matching the status pattern starts with `SI` |
| Headers.StatusLineIsNoHeader | sipproxy.py:59-76 | the status line `response` writes into line 0 is none of the headers `response` or `resend` rewrite |
| Headers.CallIdOfNewHead | sipproxy.py:206-212 | replacing line 0 with another line that is no Call-ID line keeps the Call-ID of the message |
| Headers.HasNameExtended | sipproxy.py:62-63 | appending text to a line that matches a header pattern keeps it matching, so a tagged To line is still a To line |
| Headers.SkipSpacesExtended | sipproxy.py:14-23 | appending text after the non-space remainder of a `\s*` does not change where the `\s*` stops |
| Headers.PlainContentLengthIgnored | sipproxy.py:18 | an ordinary `Content-Length: <digits>` line does not match the Content-Length pattern as written |
| Rewrite.ResponseLines | sipproxy.py:58-76 | `response` keeps the number of lines and puts `SIP/2.0 <code>` in line 0 |
| Rewrite.ResponseKeepsCallId | sipproxy.py:58-76 | `response` leaves the Call-ID of a message alone |
| Rewrite.ResponseLineKeepsCallId | sipproxy.py:61-76 | the rewrite `response` applies to a line keeps what the Call-ID pattern finds in it |
| Rewrite.ContentLengthIsNoCallId | sipproxy.py:18-20 | a line the Content-Length pattern matches is no Call-ID line |
| Rewrite.ResponseKeepsOtherLines | sipproxy.py:61-76 | a line that is neither To, Via nor matched by the Content-Length pattern goes out unchanged |
| Rewrite.ResponseTagsOnce | sipproxy.py:62-63 | a To line goes out tagged, with `;tag=123456` appended only when it held no `;tag`, and a second `response` appends nothing more |
| Rewrite.TagOnce | sipproxy.py:62-63 | the same, for one line |
| Rewrite.TaggedLineKept | sipproxy.py:62-63 | a To line already holding `;tag` is kept as it is |
| Rewrite.UntaggedLineTagged | sipproxy.py:62-63 | a To line without `;tag` gets exactly the fixed tag appended |
| Rewrite.TagAppended | sipproxy.py:62-63 | a line with the fixed tag appended holds `;tag` and is still a To line |
| Rewrite.ResponseKeepsContentLength | sipproxy.py:18 | an ordinary `Content-Length: N` line is sent unchanged, because the pattern asks for a second colon (also lines 75-76) |
| Rewrite.ResponseMarksVia | sipproxy.py:65-73 | a Via holding `;rport` gains `received=<ip>;rport=<port>`; any other Via gets exactly `;received=<ip>` appended; either way `received=<ip>` is in the line |
| Rewrite.ViaResponse | sipproxy.py:65-73 | every Via line reaches the Via rule of `response`, with the `';rport' in header` test |
| Rewrite.ReceivedMarked | sipproxy.py:66-73 | both Via rewrites leave `received=<ip>` in the line, and the `rport` replacement leaves the full NAT parameters (also lines 159-164) |
| Rewrite.Emit | sipproxy.py:155-167 | one original line yields at most two output lines |
| Rewrite.ConcatAppend | sipproxy.py:151-167 | laying out two lists of chunks one after the other gives the two layouts one after the other |
| Rewrite.ConcatAt | sipproxy.py:151-167 | the chunk of line `k` sits in the laid-out output at the total length of the chunks before it |
| Rewrite.ConcatGrows | sipproxy.py:151-167 | the output built over more lines is never shorter |
| Rewrite.AssembleShape | sipproxy.py:150-167 | the built list is the chunks laid end to end, with RECORD_ROUTE at index 1 exactly when the list held one line before a later chunk |
| Rewrite.InsertedExtends | sipproxy.py:152-153 | RECORD_ROUTE has gone in after one more line exactly when it had gone in already, or exactly one line was out before that line |
| Rewrite.AssembleKeepsPair | sipproxy.py:155-165 | the two lines a branch-carrying Via yields stay adjacent in the built list |
| Rewrite.RelayDropsRoutes | sipproxy.py:166-167 | no line of a relayed message is a Route line |
| Rewrite.AssembleHasNoRoute | sipproxy.py:150-167 | inserting RECORD_ROUTE adds no Route line |
| Rewrite.ConcatHasNoRoute | sipproxy.py:151-167 | chunks free of Route lines lay out free of Route lines |
| Rewrite.EmitHasNoRoute | sipproxy.py:155-167 | no line emitted for an original line is a Route line |
| Rewrite.MarkedIsVia | sipproxy.py:159-164 | a NAT-marked Via is no Route line |
| Rewrite.MarkedHead | sipproxy.py:159-164 | the NAT marking keeps the first character of a Via line that does not start with `r` |
| Rewrite.BranchViaIsNoRoute | sipproxy.py:32 | the proxy's own Via with a branch is no Route line (also line 157) |
| Rewrite.RecordRouteIsNoRoute | sipproxy.py:33 | RECORD_ROUTE is no Route line |
| Rewrite.RelayLayout | sipproxy.py:146-171 | the relayed list is the output of the lines in order, with RECORD_ROUTE inserted at most once and only at index 1 |
| Rewrite.RelayRecordRouteSecond | sipproxy.py:150-153 | with an ordinary line 0 and a header after it, line 0 goes out first and RECORD_ROUTE second |
| Rewrite.RelayPrefixesBranchVia | sipproxy.py:155-165 | a Via with `;branch=` goes out NAT-marked, right after the proxy's own Via carrying the same branch |
| Engine.ExpireRemovesOnlyTarget | sipproxy.py:35-39 | `expired` is true exactly when the validity is at or before `now`; then only that entry is removed, otherwise nothing is |
| Engine.ScanAppend | sipproxy.py:82-94 | the register loop over a split list continues from where the first part left it |
| Engine.ScanKeepsExpires | sipproxy.py:82-94 | lines without an expiry value leave the expiry found so far alone |
| Engine.LaterExpiresWins | sipproxy.py:90-94 | a later Expires header or Contact `expires=` value overrides every earlier one |
| Engine.AbsorbStep | sipproxy.py:82-94 | one iteration raises exactly when the line's expiry text does not parse; otherwise it rebinds `source`, `contact` and `expires` to what the line offers and keeps the others |
| Engine.ScanFails | sipproxy.py:82-94 | the loop raises exactly when some line's expiry text, a Contact `expires=` or an Expires header, does not parse |
| Engine.ScanKeepsSource | sipproxy.py:83-85 | lines without a To line holding a SIP URI leave `source` as it was |
| Engine.ScanSourceIsLastTo | sipproxy.py:82-85 | `source` ends as the identity of the last To line holding a SIP URI; a later To line without one leaves it in place |
| Engine.ScanKeepsContact | sipproxy.py:87-89 | lines without a Contact line holding a SIP URI leave `contact` as it was |
| Engine.ScanContactIsLast | sipproxy.py:82-89 | `contact` ends as the host of the last Contact line holding a SIP URI; a later Contact line without one leaves it in place |
| Engine.ScanExpiresIsLast | sipproxy.py:82-94 | `expires` ends as the value of the last line offering one |
| Engine.RegisterRemoves | sipproxy.py:96-97 | with every expiry parsing and the last one 0, the identity of the last To line holding a URI is removed (also lines 82-94) |
| Engine.RegisterStores | sipproxy.py:98-107 | with every expiry parsing and the last one `n != 0`, the last To identity is stored with the socket, the last Contact host, the client and `now + n` (also lines 82-94) |
| Engine.RegisterFailsOnParse | sipproxy.py:90-94 | `sip_register` raises when some expiry text does not parse |
| Engine.RegisterNeedsExpiry | sipproxy.py:96-99 | `sip_register` raises when no line offers an expiry, since `expires` is unbound (also lines 82-94) |
| Engine.RegisterNeedsSource | sipproxy.py:96-102 | `sip_register` raises when no To line holds a SIP URI, since `source` is unbound (also lines 83-85) |
| Engine.RegisterNeedsContact | sipproxy.py:98-107 | with a last expiry other than 0 and no Contact line holding a URI, `sip_register` raises |
| Engine.EnrollEffect | sipproxy.py:96-110 | a removal drops exactly that identity; a store replaces exactly its entry; the registration is logged exactly when the identity was absent; no other entry changes |
| Engine.ResendEffect | sipproxy.py:146-171 | `resend` never changes the registry, calls or log, sends nothing to an unknown target, and sends the relayed lines to a registered target's socket and client |
| Engine.AdmissionOrder | sipproxy.py:112-138 | exactly one outcome, tested in the order 400, 500, 480/406, forward; the caller's expiry is never looked at |
| Engine.CallerExpiryIgnored | sipproxy.py:113-115 | a registered caller whose entry has lapsed is still admitted |
| Engine.AdmittedEvictsLapsedCallee | sipproxy.py:121 | admission removes only a registered callee that has lapsed, and changes no other entry (also line 135) |
| Engine.AdmissionSendsOne | sipproxy.py:112-138 | admission sends exactly one datagram: the status response to the sender with the right code in line 0, or the relayed message to the callee |
| Engine.ScreenUnknownCaller | sipproxy.py:113-115 | a caller with no SIP URI in From, or not registered, is answered with the 400 response and nothing else changes (also lines 127-129) |
| Engine.ScreenNoCallee | sipproxy.py:117-119 | a registered caller with no SIP URI in To is answered with the 500 response of the method and nothing else changes (also lines 131-133) |
| Engine.ScreenUnregisteredCallee | sipproxy.py:121-122 | a callee that is not registered is answered with 480 (INVITE) or 406 (others) and nothing else changes (also lines 135-136) |
| Engine.ScreenLapsedCallee | sipproxy.py:121-122 | a registered callee whose validity has passed is removed from the registry, and the caller is answered with 480 or 406 (also lines 135-136) |
| Engine.ScreenForward | sipproxy.py:124 | a registered caller and a live registered callee lead to `resend` to the callee, with the registry unchanged (also line 138) |
| Engine.ScreenKeepsCalls | sipproxy.py:112-138 | admission changes neither the calls nor the log, and changes the registry only by the eviction |
| Engine.AdmissionKeepsCallId | sipproxy.py:112-138 | the message the later Call-ID lookup reads holds the request's own Call-ID (also lines 189-190) |
| Engine.DropsMalformed | sipproxy.py:175-181 | a datagram that does not decode, or whose line 0 is empty or lacks `SIP/2.0`, changes nothing and sends nothing |
| Engine.DispatchInvite | sipproxy.py:182-187 | an INVITE reaches the INVITE branch |
| Engine.DispatchAck | sipproxy.py:182-196 | an ACK reaches the ACK branch |
| Engine.DispatchStatus | sipproxy.py:182-203 | a status line reaches the status branch |
| Engine.DispatchOther | sipproxy.py:182-223 | BYE and CANCEL reach `sip_other` |
| Engine.NotStartingWith | sipproxy.py:182-219 | the `startswith` tests of the dispatcher exclude each other when first letters differ |
| Engine.InviteTracksCall | sipproxy.py:186-193 | an INVITE adds its Call-ID to `calling` whatever the admission outcome, refused calls too; the registry changes only by the eviction |
| Engine.InviteIdempotent | sipproxy.py:191-193 | handling the same INVITE again leaves `calling` as it was |
| Engine.AckKeepsCalls | sipproxy.py:195-201 | an ACK only reads `calling`, and changes neither `calling` nor the registry |
| Engine.HangUpUntracks | sipproxy.py:222-237 | BYE and CANCEL remove their Call-ID from `calling`, whether or not it was there |
| Engine.OtherUntracks | sipproxy.py:222-237 | the same, for the `sip_other` branch |
| Engine.UntrackRemoves | sipproxy.py:213-215 | the removal leaves `calling` without the Call-ID and the registry unchanged (also lines 228-237) |
| Engine.HangUpBranch | sipproxy.py:225-237 | BYE ends and CANCEL cancels |
| Engine.HangUpIsNoCallId | sipproxy.py:225-237 | a BYE or CANCEL request line is no Call-ID line |
| Engine.HangUpIdempotent | sipproxy.py:228-237 | a repeated BYE or CANCEL leaves `calling` as the first one did |
| Engine.StatusUntracksRejection | sipproxy.py:203-217 | a 486 or 603 removes its Call-ID from `calling`; any other status keeps `calling`; no status changes the registry |
| Engine.StatusUntracks | sipproxy.py:203-217 | the same, for the status branch |
| Engine.StatusKeepsCallId | sipproxy.py:206-209 | rewriting the reason text of line 0 keeps the Call-ID |
| Engine.BusyRelayed | sipproxy.py:206-217 | a 486 sends exactly one datagram: the message relayed with line 0 `SIP/2.0 486 Obsadene`, to the registered socket and client of the From identity, RECORD_ROUTE in line 1; an unknown caller gets nothing |
| Engine.BusyStatusRelayed | sipproxy.py:203-217 | the same for the status branch, where line 0 becomes `SIP/2.0 486 Obsadene` |
| Engine.TryingRelayed | sipproxy.py:208-217 | a 100 is relayed the same way with line 0 `SIP/2.0 100 Volame`, and `calling` is unchanged |
| Engine.TryingStatusRelayed | sipproxy.py:203-217 | the same for the status branch, where line 0 becomes `SIP/2.0 100 Volame` |
| Engine.RelabelledFirst | sipproxy.py:150-153 | a status line put into line 0 is relayed first, with RECORD_ROUTE right after it (also lines 206-209) |
| Engine.RegisterHandled | sipproxy.py:182-184 | a failed REGISTER changes nothing and sends nothing; otherwise the outcome is applied and `200 0K` goes back to the sender |
| Engine.NotificationAnswered | sipproxy.py:219-220 | SUBSCRIBE, PUBLISH and NOTIFY are answered `200 0K` and change nothing else |
| Engine.RegistryOnlyShrinks | sipproxy.py:186-237 | outside REGISTER the registry can only lose entries, never gain or change one |
| Engine.OtherRegistry | sipproxy.py:222-237 | `sip_other` changes the registry only by the eviction |
| Proxy.Store.constructor | sipproxy.py:8-9 | the module state starts empty |
| Proxy.Handler.constructor | sipproxy.py:174 | the handler starts with its socket and peer, and no lines |
| Proxy.Handler.Expired | sipproxy.py:35-39 | the method returns and leaves what `Expire` says, and touches nothing else |
| Proxy.Handler.FindClient | sipproxy.py:47-51 | the loop returns `ClientOf` of the lines |
| Proxy.Handler.Participants | sipproxy.py:41-45 | the From and To identities |
| Proxy.Handler.CallId | sipproxy.py:53-56 | the loop returns `CallIdOf` of the lines |
| Proxy.Handler.FirstValue | sipproxy.py:53-56 | the loop returns the first value the pattern gives |
| Proxy.Handler.Response | sipproxy.py:58-79 | the in-place loop leaves `ResponseLines` in `headers`, sends them to the sender, and changes nothing else |
| Proxy.Handler.SipRegister | sipproxy.py:81-110 | the loop and its tail compute `Register` and apply it with `Enroll` |
| Proxy.Handler.Resend | sipproxy.py:146-171 | nothing is sent to a missing or unregistered target; otherwise one datagram holding the relayed lines goes to the target's registered socket and client, as `Engine.Resend` says |
| Proxy.Handler.Relayed | sipproxy.py:150-167 | the loop over the lines builds `Relay` of them: Route lines dropped, Via lines marked, RECORD_ROUTE inserted once one line is out |
| Proxy.Handler.Emitted | sipproxy.py:155-167 | one line becomes what `Emit` says: a Via gives the proxy's branch Via when it carries a branch, then its marked self; a Route gives nothing; any other line itself |
| Proxy.Handler.ResendToSource | sipproxy.py:140-141 | `resend` to the From identity |
| Proxy.Handler.ResendToDestination | sipproxy.py:143-144 | `resend` to the To identity |
| Proxy.Handler.Admission | sipproxy.py:112-138 | the state and lines left are what `Screen` says, for both status pairs |
| Proxy.Handler.SipInvite | sipproxy.py:112-124 | the state and lines left are what `Invite` says |
| Proxy.Handler.SipOther | sipproxy.py:126-138 | the state and lines left are what `Other` says |
| Proxy.Handler.OnRegister | sipproxy.py:182-184 | the REGISTER branch computes `HandleRegister` |
| Proxy.Handler.OnInvite | sipproxy.py:186-193 | the INVITE branch computes `HandleInvite` |
| Proxy.Handler.OnAck | sipproxy.py:195-201 | the ACK branch computes `HandleAck` |
| Proxy.Handler.OnStatus | sipproxy.py:203-217 | the status branch computes `HandleStatus` |
| Proxy.Handler.Relabel | sipproxy.py:204-209 | line 0 becomes what `StatusHeaders` says: `SIP/2.0 486 Obsadene` for 486, `SIP/2.0 100 Volame` for 100, unchanged otherwise |
| Proxy.Handler.OnOther | sipproxy.py:222-237 | the remaining branch computes `HandleOther` |
| Proxy.Handler.Hangup | sipproxy.py:210-215 | a tracked Call-ID is logged and removed, as in `Untrack` (also lines 225-237) |
| Proxy.Handler.Handle | sipproxy.py:173-237 | the store ends as `Engine.Handle` says, so every `Engine` lemma about `Handle` holds of the method |
| Proxy.AssembleStep | sipproxy.py:151-167 | one more loop iteration extends the built list exactly as `Assemble` over one more line |
| EarlyProxy.ForwardLines | sip_proxy.py:10-18 | `forward_response` keeps the number of lines and puts `SIP/2.0 <code>` in line 0 |
| EarlyProxy.StatusLineUntouched | sip_proxy.py:11-18 | the status line in line 0 is left as written |
| EarlyProxy.ForwardTags | sip_proxy.py:14-15 | every `To:` line goes out holding `;tag`, with the fixed tag appended only when it held none |
| EarlyProxy.TagHoldsTag | sip_proxy.py:15 | a line with the fixed tag appended holds `;tag` |
| EarlyProxy.ForwardZeroesLength | sip_proxy.py:17-18 | every `Content-Length:` line becomes exactly `Content-Length: 0` |
| EarlyProxy.ForwardKeepsOthers | sip_proxy.py:13-18 | every other line is sent unchanged |
| EarlyProxy.ForwardIdempotent | sip_proxy.py:13-18 | a second `forward_response` changes nothing further, with any code: no second tag |
| EarlyProxy.ForwardLineIdempotent | sip_proxy.py:13-18 | the same, for one line |
| EarlyProxy.LengthZeroedOnlyHere | sip_proxy.py:17-18 | for any digits, a `Content-Length: <digits>` line after line 0 is zeroed by the early builder and sent unchanged by the later `response` |
| EarlyProxy.SourceIsLastTo | sip_proxy.py:24-28 | `source` ends bound to the identity of the last `To:` line holding a URI |
| EarlyProxy.SourceUnbound | sip_proxy.py:24-28 | with no such line, `source` stays unbound |
| EarlyProxy.ContactIsLast | sip_proxy.py:29-32 | `contact` ends bound to the host of the last `Contact:` line holding a URI |
| EarlyProxy.ContactUnbound | sip_proxy.py:29-32 | with no such line, `contact` stays unbound |
| EarlyProxy.RegisterNamesLast | sip_proxy.py:23-38 | the registration stores `[contact, socket, client]` under the last To identity, with the last Contact host |
| EarlyProxy.RegisterNeedsBoth | sip_proxy.py:34-38 | without a `To:` URI or without a `Contact:` URI nothing is registered |
| EarlyProxy.OnlyRegisterHandled | sip_proxy.py:41-48 | anything but a well-formed REGISTER changes nothing and sends nothing |
| EarlyProxy.RegisterEffect | sip_proxy.py:34-39 | a REGISTER either fails with nothing changed, or overwrites exactly the identity's binding, keeps every other entry, and sends one `SIP/2.0 200 0K` reply back to the sender |
| EarlyProxy.ReRegisterKeepsRegistry | sip_proxy.py:34-38 | the same datagram a second time leaves the registry as once; there is no expiry and no removal |
| EarlyProxy.Registrar.constructor | sip_proxy.py:4 | the registry starts empty |
| EarlyProxy.Handler.constructor | sip_proxy.py:42 | the handler starts with its socket and peer, and no lines |
| EarlyProxy.Handler.ForwardResponse | sip_proxy.py:10-21 | the in-place loop leaves `ForwardLines` in `headers`, sends them to the sender, and keeps the registry |
| EarlyProxy.Handler.SipRegister | sip_proxy.py:23-39 | the loop computes `EarlyRegister`, and the method applies it with `Registered` |
| EarlyProxy.Handler.Handle | sip_proxy.py:41-48 | the registrar ends as `HandleDatagram` says |

## Left out

- UDP transport: `sendto` becomes a `Datagram` appended to `sent`, and `UDPServer` and the `socketserver` threading around the handler are not modelled.
- main.py is not part of this model. It only configures logging and starts the server.
- The `settings` module is not part of this model. `SIP_IP` and `SIP_PORT` are the `Config` parameter.
- `time()` becomes the parameter `now`: one integer per datagram, truncated as `int(time())` truncates.
- Logging: `logging.info` becomes an `Event` that records the identities and the Call-ID. The text of the messages is not modelled, and neither are the `print` calls.
- UTF-8 decoding is a datagram given as `None` or as its decoded lines. CRLF splitting is done by the caller. `split` never yields an empty list; an empty list given as input is dropped like an empty line 0.
- Unicode case folding under `re.I` and Unicode digits under `\d` are not modelled. Only ASCII letters are folded and only ASCII digits are digits. `\s` is Python's full white-space set.
- `int()` accepts surrounding white space (not U+001C to U+001F), a sign and 1 to 4300 ASCII digits. The limit is `sys.int_info.default_max_str_digits` of Python 3.11 and later, so a longer Expires value makes `sip_register` raise; older Pythons have no limit. Underscores between digits and non-ASCII digits are not modelled.
- Text.ParseDecimal: the round trip is stated only for numbers of at most 4300 digits, since `int()` raises on longer text. A port has at most five.
- Text.SkipSpaces: its contract states only that the result is no longer and starts with a non-space. That the result is a suffix of the input is not stated.

## Behaviour as written

Where the design of the code and the code differ, the model follows the code:

- The Content-Length pattern of `sipproxy.py` is `^Content-Length:\s*:`. It asks for a second colon, so `response` never zeroes an ordinary `Content-Length: N` line (`Rewrite.ResponseKeepsContentLength`). The earlier `forward_response` does zero it (`EarlyProxy.LengthZeroedOnlyHere`).
- The To tag is the fixed string `;tag=123456`.
- An INVITE adds its Call-ID to `calling` even when it was refused (`Engine.InviteTracksCall`).
- `call_id` returns `None` for a message without a Call-ID, and that `None` goes into `calling` like any other value. So `calling` is a set of optional strings.
- A REGISTER that raises, or whose fields are missing, sends no `200 0K`: the exception ends the handler before `response` is reached.
