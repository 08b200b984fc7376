/**
 What get_http_info (drakrun/analyzer/postprocessing/plugins/get_http_info.py) reports, by the
 logged calls: which argument of which call becomes which field.
 */
module HttpCalls {
  import opened Common
  import opened Http

  // ---------- Which calls belong together ----------

  predicate Opens(e: Event, p: nat, handle: Value, call: Call) {
    e.process == Some(p) && e.call == call && handle == Number(e.retval)
  }

  /** Of the first n calls, call i is the last one of this kind that returned the handle. */
  ghost predicate LatestOpening(es: seq<Event>, n: nat, p: nat, handle: Value, call: Call, i: nat) {
    i < n <= |es| && Opens(es[i], p, handle, call) && forall j: nat :: i < j < n ==> !Opens(es[j], p, handle, call)
  }

  ghost predicate NeverOpened(es: seq<Event>, n: nat, p: nat, handle: Value, call: Call) {
    n <= |es| && forall j: nat :: j < n ==> !Opens(es[j], p, handle, call)
  }

  ghost predicate OpenedBy(es: seq<Event>, n: nat, p: nat, handle: Value, call: Call, i: Option<nat>) {
    if i.Some? then LatestOpening(es, n, p, handle, call, i.value) else NeverOpened(es, n, p, handle, call)
  }

  /** The call adds a header to the request of this handle. */
  predicate AddsHeader(e: Event, p: nat, handle: Value, api: Api) {
    e.process == Some(p) && e.call == AddHeaders(api) && |e.arguments| >= 2 && e.arguments[0] == handle
  }

  /** Where a request, its connection, its session and its headers stand in the log. */
  datatype Places = Places(request: nat, connection: Option<nat>, session: Option<nat>, headers: seq<nat>)

  /** The number of arguments that a call uses. */
  predicate Complete(e: Event) {
    match e.call
    case OpenSession(_) => |e.arguments| >= 4
    case Connect(WinInet) => |e.arguments| >= 6 && e.arguments[2].Number?
    case Connect(WinHttp) => |e.arguments| >= 3 && e.arguments[2].Number?
    case OpenRequest(_) => |e.arguments| >= 7
    case AddHeaders(_) => |e.arguments| >= 1
    case CrackUrl => |e.arguments| >= 1
    case CreateUrl => |e.arguments| >= 4
    case Other => true
  }

  /** The last request under the handle; the last connection under its first argument before it, and so on. */
  ghost predicate Correlated(es: seq<Event>, p: nat, handle: Value, api: Api, x: Places) {
    && LatestOpening(es, |es|, p, handle, OpenRequest(api), x.request) && Complete(es[x.request])
    && OpenedBy(es, x.request, p, es[x.request].arguments[0], Connect(api), x.connection)
    && (x.connection.None? ==> x.session.None?)
    && (x.connection.Some? ==>
          var c := x.connection.value;
          && Complete(es[c]) && OpenedBy(es, c, p, es[c].arguments[0], OpenSession(api), x.session)
          && (x.session.Some? ==> Complete(es[x.session.value])))
    && Increasing(x.headers)
    && (forall j :: 0 <= j < |x.headers| ==>
          x.headers[j] < |es| && AddsHeader(es[x.headers[j]], p, handle, api))
    && forall h: nat :: h in x.headers <==> x.request < h < |es| && AddsHeader(es[h], p, handle, api)
  }

  // ---------- Which argument becomes which field ----------

  /** The field is reported with the value, or left out if that is zero or empty. */
  predicate Says(m: map<Field, Entry>, f: Field, v: Entry) {
    if v == One(Number(0)) || v == One(Text("")) || v == Many([]) then f !in m else f in m && m[f] == v
  }

  predicate SaysRequest(m: map<Field, Entry>, e: Event)
    requires |e.arguments| >= 7
  {
    && Says(m, Verb, One(e.arguments[1])) && Says(m, Path, One(e.arguments[2]))
    && Says(m, Version, One(e.arguments[3])) && Says(m, Referer, One(e.arguments[4]))
    && Says(m, Flags, One(e.arguments[6]))
  }

  predicate SaysConnection(m: map<Field, Entry>, e: Event)
    requires e.call.Connect? && Complete(e)
  {
    && Says(m, ServerName, One(e.arguments[1]))
    && Says(m, ServerPort, One(Number(e.arguments[2].n % 0x10000)))
    && if e.call == Connect(WinInet) then
         && Says(m, Username, One(e.arguments[3])) && Says(m, Password, One(e.arguments[4]))
         && Says(m, Service, One(e.arguments[5]))
       else Username !in m && Password !in m && Service !in m
  }

  predicate SaysSession(m: map<Field, Entry>, e: Event)
    requires |e.arguments| >= 4
  {
    && Says(m, UserAgent, One(e.arguments[0])) && Says(m, Proxy, One(e.arguments[2]))
    && Says(m, ProxyBypass, One(e.arguments[3]))
  }

  function HeaderValues(es: seq<Event>, headers: seq<nat>): seq<Value>
    requires forall j :: 0 <= j < |headers| ==> headers[j] < |es| && |es[headers[j]].arguments| >= 2
  {
    seq(|headers|, j requires 0 <= j < |headers| => es[headers[j]].arguments[1])
  }

  /** The report of a request says what its calls say, and nothing else. */
  ghost predicate SaysCalls(m: map<Field, Entry>, es: seq<Event>, p: nat, handle: Value, api: Api, x: Places)
    requires Correlated(es, p, handle, api, x)
  {
    && m.Keys >= {ProcessSeqid} && m[ProcessSeqid] == One(Number(p))
    && SaysRequest(m, es[x.request])
    && Says(m, ExtraHeaders, Many(HeaderValues(es, x.headers)))
    && (if x.connection.Some? then SaysConnection(m, es[x.connection.value])
        else ServerName !in m && ServerPort !in m && Username !in m && Password !in m && Service !in m)
    && (if x.session.Some? then SaysSession(m, es[x.session.value])
        else UserAgent !in m && Proxy !in m && ProxyBypass !in m)
  }

  ghost predicate ReportsCalls(es: seq<Event>, k: Key, m: map<Field, Entry>) {
    exists x :: Correlated(es, k.process, k.handle, k.api, x) && SaysCalls(m, es, k.process, k.handle, k.api, x)
  }

  // ---------- Failing calls ----------

  ghost predicate Works(es: seq<Event>) {
    forall i :: 0 <= i < |es| ==> !FailsAt(es, i)
  }

  /**
   A call fails if its process is unknown, an argument is missing, the port is a text, or a
   header is missing for a request that is known.
   */
  ghost predicate CallFails(es: seq<Event>, i: nat)
    requires i < |es|
  {
    || es[i].process.None? || !Complete(es[i])
    || (es[i].call.AddHeaders? && |es[i].arguments| == 1
        && exists j: nat :: j < i && Opens(es[j], es[i].process.value, es[i].arguments[0], OpenRequest(es[i].call.api)))
  }

  /** What opens a handle, by its key. */
  function OpeningCall(k: Key): Call {
    match k.kind
    case SessionKind => OpenSession(k.api)
    case ConnectionKind => Connect(k.api)
    case RequestKind => OpenRequest(k.api)
  }

  lemma OpenedExactly(e: Event, k: Key)
    requires e.process.Some?
    ensures Opened(e) == Some(k) <==> Opens(e, k.process, k.handle, OpeningCall(k))
  {
  }

  lemma LastOpenExactly(es: seq<Event>, n: nat, k: Key)
    requires n <= |es| && forall j :: 0 <= j < n ==> es[j].process.Some?
    ensures OpenedBy(es, n, k.process, k.handle, OpeningCall(k), LastOpen(es[..n], k))
  {
    forall j: nat | j < n ensures Opened(es[..n][j]) == Some(k) <==> Opens(es[j], k.process, k.handle, OpeningCall(k)) {
      OpenedExactly(es[j], k);
    }
  }

  lemma {:induction false} FirstFailure(es: seq<Event>, i: nat)
    requires i < |es| && forall j :: 0 <= j < i ==> es[j].process.Some?
    ensures FailsAt(es, i) <==> CallFails(es, i)
  {
    var e := es[i];
    if e.process.Some? && Complete(e) && e.call.AddHeaders? && |e.arguments| == 1 {
      LastOpenExactly(es, i, Given(e).value);
    }
  }

  /** The run fails exactly if one of its calls does. */
  lemma FailsExactly(es: seq<Event>)
    ensures Works(es) <==> forall i: nat :: i < |es| ==> !CallFails(es, i)
  {
    if Works(es) {
      forall i: nat | i < |es| ensures !CallFails(es, i) {
        forall j | 0 <= j < i ensures es[j].process.Some? { assert !FailsAt(es, j); }
        FirstFailure(es, i);
      }
    } else {
      var i :| 0 <= i < |es| && FailsAt(es, i);
      if forall j: nat :: j < |es| ==> !CallFails(es, j) {
        forall j: nat | j < i ensures es[j].process.Some? { assert !CallFails(es, j); }
        FirstFailure(es, i);
      }
    }
  }

  // ---------- The report ----------

  lemma WorkingCall(es: seq<Event>, i: nat)
    requires Works(es) && i < |es|
    ensures es[i].process.Some? && Complete(es[i])
    ensures es[i].call.AddHeaders? && LastOpen(es[..i], Given(es[i]).value).Some? ==> |es[i].arguments| >= 2
  {
    assert !FailsAt(es, i);
  }

  lemma AllKnown(es: seq<Event>)
    requires Works(es)
    ensures forall j :: 0 <= j < |es| ==> es[j].process.Some?
  {
    forall j | 0 <= j < |es| ensures es[j].process.Some? { WorkingCall(es, j); }
  }

  /** The last opening within a beginning of the log. */
  lemma LastOpenWithin(es: seq<Event>, n: nat, k: Key)
    requires Works(es) && n <= |es|
    ensures OpenedBy(es, n, k.process, k.handle, OpeningCall(k), LastOpen(es[..n], k))
    ensures LastOpen(es[..n], k).Some? ==> LastOpen(es[..n], k).value < n && Complete(es[LastOpen(es[..n], k).value])
  {
    AllKnown(es);
    LastOpenExactly(es, n, k);
    if LastOpen(es[..n], k).Some? {
      WorkingCall(es, LastOpen(es[..n], k).value);
    }
  }

  /** A header that comes behind the opening of its request is complete. */
  lemma HeaderComplete(es: seq<Event>, k: Key, i: nat, h: nat)
    requires Works(es) && k.kind.RequestKind? && i < h < |es| && Opened(es[i]) == Some(k)
    ensures es[h].call.AddHeaders? && Given(es[h]) == Some(k) <==> AddsHeader(es[h], k.process, k.handle, k.api)
  {
    WorkingCall(es, h);
    if es[h].call.AddHeaders? && Given(es[h]) == Some(k) {
      assert es[..h][i] == es[i];
    }
  }

  /** The places between i and n of the calls that add a header to the request. */
  ghost predicate HeaderPlaces(es: seq<Event>, k: Key, i: nat, n: nat, hs: seq<nat>) {
    && n <= |es| && Increasing(hs)
    && (forall j :: 0 <= j < |hs| ==> hs[j] < n && AddsHeader(es[hs[j]], k.process, k.handle, k.api))
    && forall h: nat :: h in hs <==> i < h < n && AddsHeader(es[h], k.process, k.handle, k.api)
  }

  lemma PlaceNext(es: seq<Event>, k: Key, i: nat, n: nat, hs: seq<nat>) returns (next: seq<nat>)
    requires i < n < |es| && HeaderPlaces(es, k, i, n, hs)
    ensures HeaderPlaces(es, k, i, n + 1, next)
    ensures next == if AddsHeader(es[n], k.process, k.handle, k.api) then hs + [n] else hs
  {
    next := hs;
    if AddsHeader(es[n], k.process, k.handle, k.api) {
      IncreasingSnoc(hs, n);
      next := hs + [n];
    }
  }

  lemma HeadersForNext(es: seq<Event>, k: Key, i: nat, n: nat)
    requires Works(es) && k.kind.RequestKind? && i < n < |es| && Opened(es[i]) == Some(k)
    ensures HeadersFor(es[i + 1..n + 1], k) == HeadersFor(es[i + 1..n], k)
              + (if AddsHeader(es[n], k.process, k.handle, k.api) then [es[n].arguments[1]] else [])
  {
    HeaderComplete(es, k, i, n);
    var all := es[i + 1..n + 1];
    assert all[..|all| - 1] == es[i + 1..n] && all[|all| - 1] == es[n];
  }

  ghost predicate HeadersAre(es: seq<Event>, k: Key, i: nat, n: nat, hs: seq<nat>) {
    && i < n <= |es| && HeaderPlaces(es, k, i, n, hs)
    && HeadersFor(es[i + 1..n], k) == HeaderValues(es, hs)
  }

  lemma HeadersNext(es: seq<Event>, k: Key, i: nat, n: nat, hs: seq<nat>) returns (next: seq<nat>)
    requires Works(es) && k.kind.RequestKind? && i < n < |es| && Opened(es[i]) == Some(k)
    requires HeadersAre(es, k, i, n, hs)
    ensures HeadersAre(es, k, i, n + 1, next)
  {
    next := PlaceNext(es, k, i, n, hs);
    HeadersForNext(es, k, i, n);
    if AddsHeader(es[n], k.process, k.handle, k.api) {
      ValuesSnoc(es, hs, n);
    }
  }

  lemma ValuesSnoc(es: seq<Event>, hs: seq<nat>, n: nat)
    requires n < |es| && |es[n].arguments| >= 2
    requires forall j :: 0 <= j < |hs| ==> hs[j] < |es| && |es[hs[j]].arguments| >= 2
    ensures HeaderValues(es, hs + [n]) == HeaderValues(es, hs) + [es[n].arguments[1]]
  {
  }

  lemma NoHeaders(es: seq<Event>, k: Key, i: nat)
    requires i < |es|
    ensures HeadersAre(es, k, i, i + 1, [])
  {
    assert es[i + 1..i + 1] == [] && HeaderValues(es, []) == [];
  }

  /** The calls that add headers, between two places. */
  lemma {:induction false} HeadersPicked(es: seq<Event>, k: Key, i: nat, n: nat) returns (hs: seq<nat>)
    requires Works(es) && k.kind.RequestKind? && i < n <= |es| && Opened(es[i]) == Some(k)
    ensures HeadersAre(es, k, i, n, hs)
    decreases n
  {
    if n == i + 1 {
      NoHeaders(es, k, i);
      hs := [];
    } else {
      hs := HeadersPicked(es, k, i, n - 1);
      hs := HeadersNext(es, k, i, n - 1, hs);
    }
  }

  // ---------- The report of one request ----------

  /** Where the connection and the session of a request were opened. */
  function ConnectionPlace(es: seq<Event>, i: nat): Option<nat>
    requires i < |es| && es[i].call.OpenRequest?
  {
    LastOpen(es[..i], Given(es[i]).value)
  }

  function SessionPlace(es: seq<Event>, c: nat): Option<nat>
    requires c < |es| && es[c].call.Connect?
  {
    LastOpen(es[..c], Given(es[c]).value)
  }

  lemma RequestCorrelated(es: seq<Event>, k: Key) returns (x: Places)
    requires Works(es) && k.kind.RequestKind? && RequestAt(es, k).Some?
    ensures Correlated(es, k.process, k.handle, k.api, x)
    ensures LastOpen(es, k) == Some(x.request) && HeadersFor(es[x.request + 1..], k) == HeaderValues(es, x.headers)
    ensures es[x.request].call.OpenRequest? && ConnectionPlace(es, x.request) == x.connection
    ensures x.connection.Some? ==>
              x.connection.value < x.request && es[x.connection.value].call.Connect?
              && SessionPlace(es, x.connection.value) == x.session
  {
    LastOpenWithin(es, |es|, k);
    assert es[..|es|] == es;
    var i := LastOpen(es, k).value;
    var hs := HeadersPicked(es, k, i, |es|);
    WorkingCall(es, i);
    LastOpenWithin(es, i, Given(es[i]).value);
    x := Places(i, ConnectionPlace(es, i), None, hs);
    if x.connection.Some? {
      var c := x.connection.value;
      LastOpenWithin(es, c, Given(es[c]).value);
      x := x.(session := SessionPlace(es, c));
    }
  }

  /** What is known of a request, by the places of its calls. */
  lemma RequestByCalls(es: seq<Event>, k: Key, x: Places)
    requires RequestAt(es, k).Some? && k.kind.RequestKind? && LastOpen(es, k) == Some(x.request)
    requires x.request < |es| && es[x.request].call.OpenRequest? && ConnectionPlace(es, x.request) == x.connection
    requires x.connection.Some? ==>
               x.connection.value < x.request && es[x.connection.value].call.Connect?
               && SessionPlace(es, x.connection.value) == x.session
    ensures x.session.Some? && x.connection.Some? ==> x.session.value < x.connection.value
    ensures RequestAt(es, k).value.extraHeaders == HeadersFor(es[x.request + 1..], k)
    ensures RequestAt(es, k).value.connection ==
              if x.connection.None? then None
              else Some(ConnectionOf(es[x.connection.value],
                                     if x.session.None? then None else Some(SessionOf(es[x.session.value]))))
    ensures RequestAt(es, k).value.(connection := None, extraHeaders := []) == RequestOf(es[x.request], None)
  {
    if x.connection.Some? {
      assert es[..x.request][..x.connection.value] == es[..x.connection.value];
    }
  }

  // ---------- Its fields ----------

  lemma TruthySaid(m: map<Field, Entry>, f: Field, v: Entry)
    requires (f in m <==> Truthy(v)) && (f in m ==> m[f] == v)
    ensures Says(m, f, v)
  {
  }

  lemma FieldSaid(p: nat, r: RequestInfo, f: Field, v: Option<Entry>)
    requires Known(r, f) == v && !f.ProcessSeqid?
    ensures if v.Some? then Says(Assemble(p, r), f, v.value) else f !in Assemble(p, r)
  {
    AssembledExact(p, r, f);
    if v.Some? {
      TruthySaid(Assemble(p, r), f, v.value);
    }
  }

  lemma RequestSaid(p: nat, r: RequestInfo, e: Event)
    requires |e.arguments| >= 7 && r.(connection := None, extraHeaders := []) == RequestOf(e, None)
    ensures SaysRequest(Assemble(p, r), e)
    ensures Says(Assemble(p, r), ExtraHeaders, Many(r.extraHeaders))
    ensures var m := Assemble(p, r); ProcessSeqid in m && m[ProcessSeqid] == One(Number(p))
  {
    AssembledExact(p, r, ProcessSeqid);
    FieldSaid(p, r, Verb, Some(One(e.arguments[1])));
    FieldSaid(p, r, Path, Some(One(e.arguments[2])));
    FieldSaid(p, r, Version, Some(One(e.arguments[3])));
    FieldSaid(p, r, Referer, Some(One(e.arguments[4])));
    FieldSaid(p, r, Flags, Some(One(e.arguments[6])));
    FieldSaid(p, r, ExtraHeaders, Some(Many(r.extraHeaders)));
  }

  lemma LoginSaid(p: nat, r: RequestInfo, login: Option<Login>)
    requires LoginKnown(r) == login
    ensures var m := Assemble(p, r);
            if login.Some? then
              && Says(m, Username, One(login.value.username)) && Says(m, Password, One(login.value.password))
              && Says(m, Service, One(login.value.service))
            else Username !in m && Password !in m && Service !in m
  {
    FieldSaid(p, r, Username, Known(r, Username));
    FieldSaid(p, r, Password, Known(r, Password));
    FieldSaid(p, r, Service, Known(r, Service));
  }

  lemma ServerSaid(p: nat, r: RequestInfo, name: Value, port: nat)
    requires r.connection.Some? && r.connection.value.serverName == name && r.connection.value.serverPort == port
    ensures Says(Assemble(p, r), ServerName, One(name)) && Says(Assemble(p, r), ServerPort, One(Number(port)))
  {
    FieldSaid(p, r, ServerName, Some(One(name)));
    FieldSaid(p, r, ServerPort, Some(One(Number(port))));
  }

  lemma ConnectionSaid(p: nat, r: RequestInfo, e: Event, session: Option<Session>)
    requires e.call.Connect? && Complete(e) && r.connection == Some(ConnectionOf(e, session))
    ensures SaysConnection(Assemble(p, r), e)
  {
    ServerSaid(p, r, e.arguments[1], e.arguments[2].n % 0x10000);
    LoginSaid(p, r, if e.call == Connect(WinInet) then Some(Login(e.arguments[3], e.arguments[4], e.arguments[5]))
                    else None);
  }

  lemma NoConnectionSaid(p: nat, r: RequestInfo)
    requires r.connection.None?
    ensures var m := Assemble(p, r);
            ServerName !in m && ServerPort !in m && Username !in m && Password !in m && Service !in m
  {
    FieldSaid(p, r, ServerName, None);
    FieldSaid(p, r, ServerPort, None);
    LoginSaid(p, r, None);
  }

  lemma SessionSaid(p: nat, r: RequestInfo, e: Event)
    requires |e.arguments| >= 4 && SessionKnown(r) == Some(SessionOf(e))
    ensures SaysSession(Assemble(p, r), e)
  {
    FieldSaid(p, r, UserAgent, Some(One(e.arguments[0])));
    FieldSaid(p, r, Proxy, Some(One(e.arguments[2])));
    FieldSaid(p, r, ProxyBypass, Some(One(e.arguments[3])));
  }

  lemma NoSessionSaid(p: nat, r: RequestInfo)
    requires SessionKnown(r).None?
    ensures var m := Assemble(p, r); UserAgent !in m && Proxy !in m && ProxyBypass !in m
  {
    FieldSaid(p, r, UserAgent, None);
    FieldSaid(p, r, Proxy, None);
    FieldSaid(p, r, ProxyBypass, None);
  }

  /** The report of a request says exactly what its calls say. */
  lemma ReportedFromCalls(es: seq<Event>, k: Key, m: map<Field, Entry>)
    requires Works(es) && k.kind.RequestKind? && Reports(es, k, m)
    ensures ReportsCalls(es, k, m)
  {
    var p, r := k.process, RequestAt(es, k).value;
    var x := RequestCorrelated(es, k);
    RequestByCalls(es, k, x);
    RequestSaid(p, r, es[x.request]);
    if x.connection.Some? {
      ConnectionSaid(p, r, es[x.connection.value],
                     if x.session.None? then None else Some(SessionOf(es[x.session.value])));
    } else {
      NoConnectionSaid(p, r);
    }
    if x.session.Some? {
      SessionSaid(p, r, es[x.session.value]);
    } else {
      NoSessionSaid(p, r);
    }
    assert SaysCalls(m, es, p, k.handle, k.api, x);
  }

  // ---------- The whole report ----------

  /** Handle j was opened first by call firsts[j]; these are all handles of requests. */
  ghost predicate KeysByCalls(es: seq<Event>, n: nat, keys: seq<Key>, firsts: seq<nat>) {
    && n <= |es| && |firsts| == |keys| && Increasing(firsts)
    && (forall j :: 0 <= j < |keys| ==> firsts[j] < n && FirstOpening(es, keys[j], firsts[j]))
    && forall i: nat :: i < n && es[i].call.OpenRequest? && es[i].process.Some? ==> KeyOf(es[i]) in keys
  }

  ghost predicate FirstOpening(es: seq<Event>, k: Key, first: nat) {
    && first < |es| && k.kind.RequestKind? && OpensKey(es[first], k)
    && forall i: nat :: i < first ==> !OpensKey(es[i], k)
  }

  predicate OpensKey(e: Event, k: Key) {
    Opens(e, k.process, k.handle, OpenRequest(k.api))
  }

  function KeyOf(e: Event): Key
    requires e.call.OpenRequest? && e.process.Some?
  {
    Key(e.process.value, Number(e.retval), RequestKind, e.call.api)
  }

  lemma KeysNext(es: seq<Event>, n: nat, keys: seq<Key>, firsts: seq<nat>) returns (next: seq<nat>)
    requires n < |es| && es[n].process.Some? && KeysByCalls(es, n, keys, firsts)
    ensures KeysByCalls(es, n + 1, if es[n].call.OpenRequest? && KeyOf(es[n]) !in keys then keys + [KeyOf(es[n])]
                                   else keys, next)
  {
    next := firsts;
    if es[n].call.OpenRequest? && KeyOf(es[n]) !in keys {
      NewKey(es, n, keys, firsts);
      IncreasingSnoc(firsts, n);
      next := firsts + [n];
      KeysStay(es, n, keys, firsts, KeyOf(es[n]));
    }
  }

  lemma KeysStay(es: seq<Event>, n: nat, keys: seq<Key>, firsts: seq<nat>, k: Key)
    requires n < |es| && |firsts| == |keys| && FirstOpening(es, k, n)
    requires forall j :: 0 <= j < |keys| ==> firsts[j] < n && FirstOpening(es, keys[j], firsts[j])
    ensures forall j :: 0 <= j < |keys + [k]| ==>
              (firsts + [n])[j] < n + 1 && FirstOpening(es, (keys + [k])[j], (firsts + [n])[j])
  {
  }

  lemma NewKey(es: seq<Event>, n: nat, keys: seq<Key>, firsts: seq<nat>)
    requires n < |es| && es[n].call.OpenRequest? && es[n].process.Some? && KeyOf(es[n]) !in keys
    requires forall i: nat :: i < n && es[i].call.OpenRequest? && es[i].process.Some? ==> KeyOf(es[i]) in keys
    ensures FirstOpening(es, KeyOf(es[n]), n)
  {
    forall i: nat | i < n ensures !OpensKey(es[i], KeyOf(es[n])) {
      if es[i].call.OpenRequest? && es[i].process.Some? { assert KeyOf(es[i]) in keys; }
    }
  }

  lemma RequestKeysNext(es: seq<Event>, n: nat)
    requires n < |es| && es[n].process.Some?
    ensures var keys := RequestKeys(es[..n]);
            RequestKeys(es[..n + 1]) ==
              if es[n].call.OpenRequest? && KeyOf(es[n]) !in keys then keys + [KeyOf(es[n])] else keys
  {
    assert es[..n + 1][..n] == es[..n] && es[..n + 1][n] == es[n];
  }

  /** The handles of requests, each once and in the order of their first opening. */
  lemma {:induction false} KeysExactly(es: seq<Event>, n: nat) returns (firsts: seq<nat>)
    requires Works(es) && n <= |es|
    ensures KeysByCalls(es, n, RequestKeys(es[..n]), firsts)
  {
    firsts := [];
    if n > 0 {
      firsts := KeysExactly(es, n - 1);
      WorkingCall(es, n - 1);
      RequestKeysNext(es, n - 1);
      firsts := KeysNext(es, n - 1, RequestKeys(es[..n - 1]), firsts);
    }
  }

  /** The call names the URL: it cracks it, or creates it. */
  predicate NamesUrl(e: Event, url: string) {
    || (e.call == CrackUrl && |e.arguments| > 0 && e.arguments[0] == Text(url))
    || (e.call == CreateUrl && |e.arguments| > 3 && e.arguments[3] == Text(url))
  }

  ghost predicate UrlsByCalls(es: seq<Event>, urls: map<string, set<nat>>) {
    forall url: string, p: nat :: url in urls && p in urls[url] <==> NamedBy(es, url, p)
  }

  ghost predicate NamedBy(es: seq<Event>, url: string, p: nat) {
    exists i :: 0 <= i < |es| && es[i].process == Some(p) && NamesUrl(es[i], url)
  }

  lemma UrlsFromCalls(es: seq<Event>)
    requires Works(es)
    ensures UrlsByCalls(es, Urls(es))
  {
    forall i | 0 <= i < |es| ensures es[i].process.Some? && Complete(es[i]) { WorkingCall(es, i); }
    forall url: string, p: nat ensures url in Urls(es) && p in Urls(es)[url] <==> NamedBy(es, url, p) {
      UrlsExact(es, url, p);
      forall i | 0 <= i < |es| ensures UrlOf(es[i]) == Some(url) <==> NamesUrl(es[i], url) {
      }
    }
  }

  /**
   The report of a trace, by its calls alone: it fails exactly if a call does; otherwise it has
   one entry for each handle of a request, in the order of first opening, that says what its
   calls say, and for each URL the processes that named it.
   */
  method GetHttpInfoByCalls(es: seq<Event>)
    returns (result: Option<Report>, ghost keys: seq<Key>, ghost firsts: seq<nat>)
    ensures result.None? <==> exists i: nat :: i < |es| && CallFails(es, i)
    ensures result.Some? ==>
              && KeysByCalls(es, |es|, keys, firsts) && |result.value.requests| == |keys|
              && (forall j :: 0 <= j < |keys| ==> ReportsCalls(es, keys[j], result.value.requests[j]))
              && UrlsByCalls(es, result.value.crackedUrls)
  {
    result := GetHttpInfo(es);
    keys, firsts := RequestKeys(es), [];
    FailsExactly(es);
    if result.Some? {
      firsts := KeysExactly(es, |es|);
      assert es[..|es|] == es;
      forall j | 0 <= j < |keys| ensures ReportsCalls(es, keys[j], result.value.requests[j]) {
        ReportedFromCalls(es, keys[j], result.value.requests[j]);
      }
      UrlsFromCalls(es);
    }
  }
}
