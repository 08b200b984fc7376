/**
 Which HTTP requests a run made (drakrun/analyzer/postprocessing/plugins/get_http_info.py):
 calls are correlated through the handles that they return and take.
 */
module Http {
  import opened Common

  datatype Value = Number(n: int) | Text(s: string)

  datatype Api = WinInet | WinHttp

  datatype Call =
    | OpenSession(api: Api)
    | Connect(api: Api)
    | OpenRequest(api: Api)
    | AddHeaders(api: Api)
    | CrackUrl
    | CreateUrl
    | Other

  /** A logged call; no process when none of that PID was alive at the event. */
  datatype Event = Event(process: Option<nat>, call: Call, arguments: seq<Value>, retval: int)

  datatype Kind = SessionKind | ConnectionKind | RequestKind

  datatype Key = Key(process: nat, handle: Value, kind: Kind, api: Api)

  datatype Session = Session(userAgent: Value, proxy: Value, proxyBypass: Value)

  datatype Login = Login(username: Value, password: Value, service: Value)

  datatype Connection = Connection(serverName: Value, login: Option<Login>, serverPort: nat, session: Option<Session>)

  datatype RequestInfo = RequestInfo(verb: Value, path: Value, version: Value, referer: Value, flags: Value,
                                     connection: Option<Connection>, extraHeaders: seq<Value>)

  datatype Thing = ASession(session: Session) | AConnection(connection: Connection) | ARequest(request: RequestInfo)

  // ---------- What single calls say ----------

  /** The calls that lack an argument they use fail, and with them the run. */
  function Arg(e: Event, i: nat): Value {
    if i < |e.arguments| then e.arguments[i] else Number(0)
  }

  function ProcessOf(e: Event): nat {
    if e.process.Some? then e.process.value else 0
  }

  /** The handle that a call opens. */
  function Opened(e: Event): Option<Key> {
    match e.call
    case OpenSession(api) => Some(Key(ProcessOf(e), Number(e.retval), SessionKind, api))
    case Connect(api) => Some(Key(ProcessOf(e), Number(e.retval), ConnectionKind, api))
    case OpenRequest(api) => Some(Key(ProcessOf(e), Number(e.retval), RequestKind, api))
    case _ => None
  }

  /** The handle that a call is given. */
  function Given(e: Event): Option<Key> {
    match e.call
    case Connect(api) => Some(Key(ProcessOf(e), Arg(e, 0), SessionKind, api))
    case OpenRequest(api) => Some(Key(ProcessOf(e), Arg(e, 0), ConnectionKind, api))
    case AddHeaders(api) => Some(Key(ProcessOf(e), Arg(e, 0), RequestKind, api))
    case _ => None
  }

  function SessionOf(e: Event): Session {
    Session(Arg(e, 0), Arg(e, 2), Arg(e, 3))
  }

  /** The port is the low half of a 32-bit argument. */
  function ConnectionOf(e: Event, session: Option<Session>): Connection {
    var port := if Arg(e, 2).Number? then Arg(e, 2).n % 0x10000 else 0;
    var login := if e.call == Connect(WinInet) then Some(Login(Arg(e, 3), Arg(e, 4), Arg(e, 5))) else None;
    Connection(Arg(e, 1), login, port, session)
  }

  function RequestOf(e: Event, connection: Option<Connection>): RequestInfo {
    RequestInfo(Arg(e, 1), Arg(e, 2), Arg(e, 3), Arg(e, 4), Arg(e, 6), connection, [])
  }

  function Needed(c: Call): nat {
    match c
    case OpenSession(_) => 4
    case Connect(WinInet) => 6
    case Connect(WinHttp) => 3
    case OpenRequest(_) => 7
    case AddHeaders(_) => 1
    case CrackUrl => 1
    case CreateUrl => 4
    case Other => 0
  }

  // ---------- What the log as a whole says ----------

  /** The place of the last call that opens the handle. */
  function LastOpen(es: seq<Event>, k: Key): (r: Option<nat>)
    ensures r.Some? ==> r.value < |es| && Opened(es[r.value]) == Some(k)
    ensures forall j :: (if r.Some? then r.value + 1 else 0) <= j < |es| ==> Opened(es[j]) != Some(k)
  {
    if es == [] then None
    else if Opened(es[|es| - 1]) == Some(k) then Some(|es| - 1)
    else LastOpen(es[..|es| - 1], k)
  }

  /** The headers that calls add to the request. */
  function HeadersFor(es: seq<Event>, k: Key): seq<Value> {
    if es == [] then []
    else
      var e := es[|es| - 1];
      HeadersFor(es[..|es| - 1], k) + (if e.call.AddHeaders? && Given(e) == Some(k) then [Arg(e, 1)] else [])
  }

  function SessionAt(es: seq<Event>, k: Key): Option<Session> {
    var i := LastOpen(es, k);
    if i.Some? then Some(SessionOf(es[i.value])) else None
  }

  /** The last connection opened under the handle, with the session that its handle stood for at that time. */
  function ConnectionAt(es: seq<Event>, k: Key): Option<Connection> {
    var i := LastOpen(es, k);
    if i.Some? && Given(es[i.value]).Some? then
      Some(ConnectionOf(es[i.value], SessionAt(es[..i.value], Given(es[i.value]).value)))
    else None
  }

  /** The last request opened under the handle, with its connection, and the headers added since. */
  function RequestAt(es: seq<Event>, k: Key): Option<RequestInfo> {
    var i := LastOpen(es, k);
    if i.Some? && Given(es[i.value]).Some? then Some(RequestFrom(es, i.value, k)) else None
  }

  function RequestFrom(es: seq<Event>, i: nat, k: Key): RequestInfo
    requires i < |es| && Given(es[i]).Some?
  {
    RequestOf(es[i], ConnectionAt(es[..i], Given(es[i]).value)).(extraHeaders := HeadersFor(es[i + 1..], k))
  }

  function At(es: seq<Event>, k: Key): Option<Thing> {
    match k.kind
    case SessionKind => var r := SessionAt(es, k); if r.Some? then Some(ASession(r.value)) else None
    case ConnectionKind => var r := ConnectionAt(es, k); if r.Some? then Some(AConnection(r.value)) else None
    case RequestKind => var r := RequestAt(es, k); if r.Some? then Some(ARequest(r.value)) else None
  }

  /** The handles of requests, in the order in which they were opened first. */
  function RequestKeys(es: seq<Event>): seq<Key> {
    if es == [] then []
    else
      var before := RequestKeys(es[..|es| - 1]);
      var e := es[|es| - 1];
      if e.call.OpenRequest? && Opened(e).value !in before then before + [Opened(e).value] else before
  }

  /** The URL that a call names. */
  function UrlOf(e: Event): Option<string> {
    match e.call
    case CrackUrl => if Arg(e, 0).Text? then Some(Arg(e, 0).s) else None
    case CreateUrl => if Arg(e, 3).Text? then Some(Arg(e, 3).s) else None
    case _ => None
  }

  ghost predicate Cracked(es: seq<Event>, url: string, p: nat) {
    exists i :: 0 <= i < |es| && UrlOf(es[i]) == Some(url) && ProcessOf(es[i]) == p
  }

  /** The call fails: nobody made it, an argument is missing, or the port is a text. */
  predicate Fails(before: seq<Event>, e: Event) {
    || e.process.None?
    || |e.arguments| < Needed(e.call)
    || (e.call.Connect? && e.arguments[2].Text?)
    || (e.call.AddHeaders? && |e.arguments| < 2 && LastOpen(before, Given(e).value).Some?)
  }

  predicate FailsAt(es: seq<Event>, i: nat)
    requires i < |es|
  {
    Fails(es[..i], es[i])
  }

  // ---------- One call after the other ----------

  function SessionIn(t: map<Key, Thing>, k: Key): Option<Session> {
    if k in t && t[k].ASession? then Some(t[k].session) else None
  }

  function ConnectionIn(t: map<Key, Thing>, k: Key): Option<Connection> {
    if k in t && t[k].AConnection? then Some(t[k].connection) else None
  }

  /** What a call does to what is known of the handles. */
  function Step(t: map<Key, Thing>, e: Event): map<Key, Thing> {
    match e.call
    case OpenSession(_) => t[Opened(e).value := ASession(SessionOf(e))]
    case Connect(_) => t[Opened(e).value := AConnection(ConnectionOf(e, SessionIn(t, Given(e).value)))]
    case OpenRequest(_) => t[Opened(e).value := ARequest(RequestOf(e, ConnectionIn(t, Given(e).value)))]
    case AddHeaders(_) =>
      var k := Given(e).value;
      if k in t && t[k].ARequest? then t[k := ARequest(AddHeader(t[k].request, Arg(e, 1)))] else t
    case _ => t
  }

  function AddHeader(r: RequestInfo, header: Value): RequestInfo {
    r.(extraHeaders := r.extraHeaders + [header])
  }

  function Table(es: seq<Event>): map<Key, Thing> {
    if es == [] then map[] else Step(Table(es[..|es| - 1]), es[|es| - 1])
  }

  lemma SessionSnoc(es: seq<Event>, e: Event, k: Key)
    ensures SessionAt(es + [e], k) == if Opened(e) == Some(k) then Some(SessionOf(e)) else SessionAt(es, k)
  {
    assert (es + [e])[..|es|] == es;
  }

  lemma ConnectionSnoc(es: seq<Event>, e: Event, k: Key)
    requires k.kind.ConnectionKind?
    ensures ConnectionAt(es + [e], k) ==
            if Opened(e) == Some(k) then Some(ConnectionOf(e, SessionAt(es, Given(e).value)))
            else ConnectionAt(es, k)
  {
    assert (es + [e])[..|es|] == es;
    var i := LastOpen(es, k);
    if Opened(e) != Some(k) && i.Some? {
      assert (es + [e])[..i.value] == es[..i.value];
    }
  }

  lemma HeadersSnoc(es: seq<Event>, e: Event, k: Key, i: nat)
    requires i < |es|
    ensures (es + [e])[..i] == es[..i] && (es + [e])[i] == es[i]
    ensures HeadersFor((es + [e])[i + 1..], k) ==
            if e.call.AddHeaders? && Given(e) == Some(k) then HeadersFor(es[i + 1..], k) + [Arg(e, 1)]
            else HeadersFor(es[i + 1..], k)
  {
    var since := es[i + 1..];
    assert (es + [e])[i + 1..] == since + [e] && (since + [e])[..|since|] == since;
  }

  lemma LastOpenSnoc(es: seq<Event>, e: Event, k: Key)
    ensures LastOpen(es + [e], k) == if Opened(e) == Some(k) then Some(|es|) else LastOpen(es, k)
  {
    assert (es + [e])[..|es|] == es;
  }

  lemma RequestFromSnoc(es: seq<Event>, e: Event, i: nat, k: Key)
    requires i < |es| && Given(es[i]).Some?
    ensures RequestFrom(es + [e], i, k) ==
            if e.call.AddHeaders? && Given(e) == Some(k) then AddHeader(RequestFrom(es, i, k), Arg(e, 1))
            else RequestFrom(es, i, k)
  {
    HeadersSnoc(es, e, k, i);
  }

  lemma RequestSnoc(es: seq<Event>, e: Event, k: Key)
    requires k.kind.RequestKind?
    ensures RequestAt(es + [e], k) ==
            if Opened(e) == Some(k) then Some(RequestOf(e, ConnectionAt(es, Given(e).value)))
            else if e.call.AddHeaders? && Given(e) == Some(k) && RequestAt(es, k).Some? then
              Some(AddHeader(RequestAt(es, k).value, Arg(e, 1)))
            else RequestAt(es, k)
  {
    LastOpenSnoc(es, e, k);
    if Opened(e) == Some(k) {
      assert (es + [e])[..|es|] == es && (es + [e])[|es| + 1..] == [];
    } else if RequestAt(es, k).Some? {
      RequestFromSnoc(es, e, LastOpen(es, k).value, k);
    }
  }

  function Lookup(t: map<Key, Thing>, k: Key): Option<Thing> {
    if k in t then Some(t[k]) else None
  }

  /** Going through the calls one by one finds what the whole log says of every handle. */
  lemma {:induction false} TableExact(es: seq<Event>, k: Key)
    ensures At(es, k) == Lookup(Table(es), k)
  {
    if es != [] {
      var before, e := es[..|es| - 1], es[|es| - 1];
      assert es == before + [e];
      TableExact(before, k);
      if Given(e).Some? { TableExact(before, Given(e).value); }
      AtSnoc(before, e, k, Table(before));
    }
  }

  lemma AtSnoc(es: seq<Event>, e: Event, k: Key, t: map<Key, Thing>)
    requires At(es, k) == Lookup(t, k)
    requires Given(e).Some? ==> At(es, Given(e).value) == Lookup(t, Given(e).value)
    ensures At(es + [e], k) == Lookup(Step(t, e), k)
  {
    match k.kind {
      case SessionKind => SessionStep(es, e, k, t);
      case ConnectionKind => ConnectionStep(es, e, k, t);
      case RequestKind => RequestStep(es, e, k, t);
    }
  }

  /** What a call says of the handle that it opens. */
  function Made(t: map<Key, Thing>, e: Event): Thing
    requires Opened(e).Some?
  {
    match e.call
    case OpenSession(_) => ASession(SessionOf(e))
    case Connect(_) => AConnection(ConnectionOf(e, SessionIn(t, Given(e).value)))
    case OpenRequest(_) => ARequest(RequestOf(e, ConnectionIn(t, Given(e).value)))
  }

  lemma StepLookup(t: map<Key, Thing>, e: Event, k: Key)
    ensures Lookup(Step(t, e), k) ==
            if Opened(e) == Some(k) then Some(Made(t, e))
            else if e.call.AddHeaders? && Given(e) == Some(k) && k in t && t[k].ARequest? then
              Some(ARequest(AddHeader(t[k].request, Arg(e, 1))))
            else Lookup(t, k)
  {
  }

  lemma SessionStep(es: seq<Event>, e: Event, k: Key, t: map<Key, Thing>)
    requires k.kind.SessionKind? && At(es, k) == Lookup(t, k)
    requires Given(e).Some? ==> At(es, Given(e).value) == Lookup(t, Given(e).value)
    ensures At(es + [e], k) == Lookup(Step(t, e), k)
  {
    StepLookup(t, e, k);
    SessionSnoc(es, e, k);
  }

  lemma ConnectionStep(es: seq<Event>, e: Event, k: Key, t: map<Key, Thing>)
    requires k.kind.ConnectionKind? && At(es, k) == Lookup(t, k)
    requires Given(e).Some? ==> At(es, Given(e).value) == Lookup(t, Given(e).value)
    ensures At(es + [e], k) == Lookup(Step(t, e), k)
  {
    StepLookup(t, e, k);
    ConnectionSnoc(es, e, k);
  }

  lemma RequestStep(es: seq<Event>, e: Event, k: Key, t: map<Key, Thing>)
    requires k.kind.RequestKind? && At(es, k) == Lookup(t, k)
    requires Given(e).Some? ==> At(es, Given(e).value) == Lookup(t, Given(e).value)
    ensures At(es + [e], k) == Lookup(Step(t, e), k)
  {
    StepLookup(t, e, k);
    RequestSnoc(es, e, k);
  }

  // ---------- Processes do not mix ----------

  function OfProcess(es: seq<Event>, p: nat): seq<Event> {
    if es == [] then []
    else OfProcess(es[..|es| - 1], p) + (if ProcessOf(es[|es| - 1]) == p then [es[|es| - 1]] else [])
  }

  /** What is found for a handle depends on the calls of its own process only. */
  lemma {:induction false} ProcessesApart(es: seq<Event>, k: Key)
    ensures At(es, k) == At(OfProcess(es, k.process), k)
  {
    TableExact(es, k);
    TableExact(OfProcess(es, k.process), k);
    TablesAgree(es, k.process, k);
  }

  /** Both say the same of the handle. */
  predicate Agree(t: map<Key, Thing>, u: map<Key, Thing>, k: Key) {
    if k in t then k in u && t[k] == u[k] else k !in u
  }

  lemma StepElsewhere(t: map<Key, Thing>, e: Event, k: Key)
    requires ProcessOf(e) != k.process
    ensures Agree(Step(t, e), t, k)
  {
  }

  lemma StepAgrees(t: map<Key, Thing>, u: map<Key, Thing>, e: Event, k: Key)
    requires Agree(t, u, k) && (Given(e).Some? ==> Agree(t, u, Given(e).value))
    ensures Agree(Step(t, e), Step(u, e), k)
  {
  }

  lemma {:induction false} TablesAgree(es: seq<Event>, p: nat, k: Key)
    requires k.process == p
    ensures Agree(Table(es), Table(OfProcess(es, p)), k)
  {
    if es != [] {
      var before, e := es[..|es| - 1], es[|es| - 1];
      var mine := OfProcess(before, p);
      TablesAgree(before, p, k);
      if ProcessOf(e) == p {
        assert OfProcess(es, p) == mine + [e] && (mine + [e])[..|mine|] == mine;
        if Given(e).Some? { TablesAgree(before, p, Given(e).value); }
        StepAgrees(Table(before), Table(mine), e, k);
      } else {
        assert OfProcess(es, p) == mine;
        StepElsewhere(Table(before), e, k);
      }
    }
  }

  // ---------- The tables ----------

  /** A request found under two tables at once; headers are added to it in place. */
  class Request {
    var info: RequestInfo

    constructor (info: RequestInfo)
      ensures this.info == info
    {
      this.info := info;
    }
  }

  datatype Handle = OfSession(session: Session) | OfConnection(connection: Connection) | OfRequest(request: Request)

  ghost predicate Shows(h: Handle, thing: Thing)
    reads if h.OfRequest? then {h.request} else {}
  {
    match h
    case OfSession(s) => thing == ASession(s)
    case OfConnection(c) => thing == AConnection(c)
    case OfRequest(r) => thing == ARequest(r.info)
  }

  predicate OfKind(k: Key, thing: Thing) {
    match k.kind
    case SessionKind => thing.ASession?
    case ConnectionKind => thing.AConnection?
    case RequestKind => thing.ARequest?
  }

  lemma {:induction false} TableKinds(es: seq<Event>)
    ensures forall k :: k in Table(es) ==> OfKind(k, Table(es)[k])
  {
    if es != [] { TableKinds(es[..|es| - 1]); }
  }

  /** Which processes named which URLs. */
  function Urls(es: seq<Event>): map<string, set<nat>> {
    if es == [] then map[] else UrlStep(Urls(es[..|es| - 1]), es[|es| - 1])
  }

  function UrlStep(t: map<string, set<nat>>, e: Event): map<string, set<nat>> {
    var url := UrlOf(e);
    if url.Some? then t[url.value := (if url.value in t then t[url.value] else {}) + {ProcessOf(e)}] else t
  }

  lemma {:induction false} UrlsExact(es: seq<Event>, url: string, p: nat)
    ensures Cracked(es, url, p) <==> url in Urls(es) && p in Urls(es)[url]
  {
    if es != [] {
      var n := |es| - 1;
      UrlsExact(es[..n], url, p);
      if i :| 0 <= i < |es| && UrlOf(es[i]) == Some(url) && ProcessOf(es[i]) == p {
        assert i < n ==> es[..n][i] == es[i];
      }
      if j :| 0 <= j < n && UrlOf(es[..n][j]) == Some(url) && ProcessOf(es[..n][j]) == p {
        assert es[j] == es[..n][j];
      }
    }
  }

  lemma {:induction false} RequestKeysExact(es: seq<Event>, k: Key)
    ensures k in RequestKeys(es) <==> k in Table(es) && Table(es)[k].ARequest?
    ensures Distinct(RequestKeys(es))
  {
    if es != [] {
      RequestKeysExact(es[..|es| - 1], k);
      TableKinds(es[..|es| - 1]);
      TableKinds(es);
    }
  }

  /** The two tables of handles; the second one keeps its keys in the order of their first use. */
  class Handles {
    var handles: map<Key, Handle>
    var requests: map<Key, Request>
    var order: seq<Key>
    ghost var view: map<Key, Thing>
    ghost var owner: map<Request, Key>

    /** Each request is in both tables, and under one handle only; view is what the handles stand for. */
    ghost predicate Valid()
      reads this, owner.Keys
    {
      && (forall k :: k in handles <==> k in view)
      && (forall k :: k in handles && handles[k].OfRequest? ==> k in requests)
      && (forall k :: k in requests ==> k in handles && handles[k] == OfRequest(requests[k]))
      && (forall k :: k in requests ==> requests[k] in owner && owner[requests[k]] == k)
      && (forall k :: k in handles ==>
            (handles[k].OfRequest? ==> handles[k].request in owner) && Shows(handles[k], view[k]))
    }

    constructor ()
      ensures Valid() && view == map[] && order == [] && owner == map[]
    {
      handles, requests, order, view, owner := map[], map[], [], map[], map[];
    }

    /** A new session or connection. */
    method Put(k: Key, h: Handle)
      requires Valid() && k !in requests && !h.OfRequest?
      modifies this`handles, this`view
      ensures Valid()
      ensures view == old(view)[k := if h.OfSession? then ASession(h.session) else AConnection(h.connection)]
    {
      handles := handles[k := h];
      view := view[k := if h.OfSession? then ASession(h.session) else AConnection(h.connection)];
    }

    /** A handle that was used before keeps its place in the order. */
    method EnterKey(k: Key)
      modifies this`order
      ensures order == old(order) + (if k in old(order) then [] else [k])
    {
      if k !in order { order := order + [k]; }
    }

    /** A new request, entered in both tables. */
    method Enter(k: Key, info: RequestInfo)
      requires Valid()
      modifies this`handles, this`requests, this`view, this`owner
      ensures Valid() && fresh(owner.Keys - old(owner.Keys))
      ensures view == old(view)[k := ARequest(info)]
    {
      var r := new Request(info);
      Link(k, r);
    }

    method Link(k: Key, r: Request)
      requires Valid() && r !in owner
      modifies this`handles, this`requests, this`view, this`owner
      ensures Valid() && owner == old(owner)[r := k]
      ensures view == old(view)[k := ARequest(r.info)]
    {
      owner := owner[r := k];
      handles := handles[k := OfRequest(r)];
      requests := requests[k := r];
      view := view[k := ARequest(r.info)];
    }

    /** What is known of the session that a connection is opened in. */
    method FindSession(k: Key) returns (session: Option<Session>)
      requires Valid()
      ensures session == SessionIn(view, k)
    {
      session := None;
      if k in handles && handles[k].OfSession? {
        session := Some(handles[k].session);
      }
    }

    method FindConnection(k: Key) returns (connection: Option<Connection>)
      requires Valid()
      ensures connection == ConnectionIn(view, k)
    {
      connection := None;
      if k in handles && handles[k].OfConnection? {
        connection := Some(handles[k].connection);
      }
    }

    /** A header is appended in place to the request that the handle stands for. */
    method AppendHeader(k: Key, header: Value)
      requires Valid() && k in view && view[k].ARequest?
      modifies this`view, owner.Keys
      ensures Valid()
      ensures view == old(view)[k := ARequest(AddHeader(old(view)[k].request, header))]
    {
      var r := handles[k].request;
      view := view[k := ARequest(AddHeader(view[k].request, header))];
      r.info := AddHeader(r.info, header);
    }

    /** Sessions and connections are no requests. */
    lemma NotARequest(k: Key)
      requires Valid() && (k in view ==> OfKind(k, view[k])) && !k.kind.RequestKind?
      ensures k !in requests
    {
    }
  }

  method OpenedSession(tables: Handles, ghost seen: seq<Event>, e: Event)
    requires tables.Valid() && tables.view == Table(seen)
    requires e.call.OpenSession? && Needed(e.call) <= |e.arguments|
    modifies tables`handles, tables`view
    ensures tables.Valid() && tables.view == Step(Table(seen), e)
  {
    var k := Opened(e).value;
    TableKinds(seen);
    tables.NotARequest(k);
    tables.Put(k, OfSession(Session(e.arguments[0], e.arguments[2], e.arguments[3])));
  }

  method Connected(tables: Handles, ghost seen: seq<Event>, e: Event)
    requires tables.Valid() && tables.view == Table(seen)
    requires e.call.Connect? && Needed(e.call) <= |e.arguments| && e.arguments[2].Number?
    modifies tables`handles, tables`view
    ensures tables.Valid() && tables.view == Step(Table(seen), e)
  {
    var session := tables.FindSession(Given(e).value);
    var k := Opened(e).value;
    TableKinds(seen);
    tables.NotARequest(k);
    tables.Put(k, OfConnection(ConnectionOf(e, session)));
  }

  method RequestOpened(tables: Handles, ghost seen: seq<Event>, e: Event)
    requires tables.Valid() && tables.view == Table(seen) && tables.order == RequestKeys(seen)
    requires e.call.OpenRequest? && Needed(e.call) <= |e.arguments|
    modifies tables
    ensures tables.Valid() && tables.view == Step(Table(seen), e) && fresh(tables.owner.Keys - old(tables.owner.Keys))
    ensures tables.order == RequestKeys(seen) + (if Opened(e).value in RequestKeys(seen) then [] else [Opened(e).value])
  {
    var connection := tables.FindConnection(Given(e).value);
    tables.EnterKey(Opened(e).value);
    tables.Enter(Opened(e).value, RequestOf(e, connection));
  }

  /** A call for a handle that stands for no request is ignored; false: the header is missing. */
  method HeaderAdded(tables: Handles, ghost seen: seq<Event>, e: Event) returns (ok: bool)
    requires tables.Valid() && tables.view == Table(seen)
    requires e.call.AddHeaders? && Needed(e.call) <= |e.arguments|
    modifies tables`view, tables.owner.Keys
    ensures ok <==> LastOpen(seen, Given(e).value).Some? ==> |e.arguments| >= 2
    ensures ok ==> tables.Valid() && tables.view == Step(Table(seen), e)
  {
    var k := Given(e).value;
    TableKinds(seen);
    TableExact(seen, k);
    ok := true;
    if k in tables.handles {
      if |e.arguments| < 2 {
        return false;
      }
      tables.AppendHeader(k, e.arguments[1]);
    }
  }

  /** A call that opens a handle or is given one for a header. */
  method RecordHandle(tables: Handles, ghost seen: seq<Event>, e: Event) returns (ok: bool)
    requires tables.Valid() && tables.view == Table(seen) && tables.order == RequestKeys(seen)
    requires Needed(e.call) <= |e.arguments|
    requires e.call.OpenSession? || e.call.Connect? || e.call.OpenRequest? || e.call.AddHeaders?
    modifies tables, tables.owner.Keys
    ensures ok <==> !(e.call.Connect? && e.arguments[2].Text?)
                    && !(e.call.AddHeaders? && |e.arguments| < 2 && LastOpen(seen, Given(e).value).Some?)
    ensures ok ==> tables.Valid() && fresh(tables.owner.Keys - old(tables.owner.Keys))
    ensures ok ==> tables.view == Step(Table(seen), e)
    ensures ok ==> tables.order == RequestKeys(seen) +
                     (if e.call.OpenRequest? && Opened(e).value !in RequestKeys(seen) then [Opened(e).value] else [])
  {
    ok := true;
    match e.call {
      case OpenSession(_) => OpenedSession(tables, seen, e);
      case Connect(_) =>
        if e.arguments[2].Text? {
          return false;
        }
        Connected(tables, seen, e);
      case OpenRequest(_) => RequestOpened(tables, seen, e);
      case AddHeaders(_) => ok := HeaderAdded(tables, seen, e);
    }
  }

  /** One pass of the loop; false: the call fails. */
  method Record(tables: Handles, cracked: map<string, set<nat>>, ghost seen: seq<Event>, e: Event)
    returns (ok: bool, urls: map<string, set<nat>>)
    requires tables.Valid() && tables.view == Table(seen) && tables.order == RequestKeys(seen) && cracked == Urls(seen)
    modifies tables, tables.owner.Keys
    ensures ok <==> !Fails(seen, e)
    ensures ok ==> tables.Valid() && fresh(tables.owner.Keys - old(tables.owner.Keys))
    ensures ok ==> tables.view == Table(seen + [e]) && tables.order == RequestKeys(seen + [e])
    ensures ok ==> urls == Urls(seen + [e])
  {
    Snoc(seen, e);
    ok, urls := true, cracked;
    if e.process.None? || |e.arguments| < Needed(e.call) {
      return false, urls;
    }
    match e.call {
      case CrackUrl => urls := Cracking(cracked, e.arguments[0], ProcessOf(e));
      case CreateUrl => urls := Cracking(cracked, e.arguments[3], ProcessOf(e));
      case Other =>
      case _ => ok := RecordHandle(tables, seen, e);
    }
  }

  /** One more process named the URL, if it is one. */
  function Cracking(cracked: map<string, set<nat>>, url: Value, p: nat): map<string, set<nat>> {
    if url.Text? then cracked[url.s := (if url.s in cracked then cracked[url.s] else {}) + {p}] else cracked
  }

  /** The requests in the order of their handles. */
  method Assembled(tables: Handles, ghost es: seq<Event>) returns (report: seq<map<Field, Entry>>)
    requires tables.Valid() && tables.view == Table(es) && tables.order == RequestKeys(es)
    ensures |report| == |RequestKeys(es)|
    ensures forall i :: 0 <= i < |report| ==> Reports(es, RequestKeys(es)[i], report[i])
  {
    report := [];
    for i := 0 to |tables.order|
      invariant |report| == i
      invariant forall j :: 0 <= j < i ==> Reports(es, RequestKeys(es)[j], report[j])
    {
      var k := tables.order[i];
      RequestKeysExact(es, k);
      RequestKeysAreRequests(es, k);
      TableExact(es, k);
      report := report + [Assemble(k.process, tables.requests[k].info)];
    }
  }

  /** What is reported for a handle: the last request opened under it. */
  predicate Reports(es: seq<Event>, k: Key, reported: map<Field, Entry>) {
    RequestAt(es, k).Some? && reported == Assemble(k.process, RequestAt(es, k).value)
  }

  /** One more call in the specification. */
  lemma Snoc(seen: seq<Event>, e: Event)
    ensures Table(seen + [e]) == Step(Table(seen), e)
    ensures Urls(seen + [e]) == UrlStep(Urls(seen), e)
    ensures RequestKeys(seen + [e]) ==
            if e.call.OpenRequest? && Opened(e).value !in RequestKeys(seen) then RequestKeys(seen) + [Opened(e).value]
            else RequestKeys(seen)
  {
    var all := seen + [e];
    assert all[..|seen|] == seen && all[|seen|] == e;
  }

  lemma {:induction false} RequestKeysAreRequests(es: seq<Event>, k: Key)
    requires k in RequestKeys(es)
    ensures k.kind.RequestKind?
  {
    if k in RequestKeys(es[..|es| - 1]) { RequestKeysAreRequests(es[..|es| - 1], k); }
  }

  // ---------- The report ----------

  datatype Field =
    | Verb | Path | Version | Referer | Flags | ExtraHeaders
    | ServerName | Username | Password | Service | ServerPort
    | UserAgent | Proxy | ProxyBypass
    | ProcessSeqid

  datatype Entry = One(value: Value) | Many(headers: seq<Value>)

  /** Zero, the empty text and the empty list are left out of the report. */
  predicate Truthy(x: Entry) {
    match x
    case One(Number(n)) => n != 0
    case One(Text(s)) => s != ""
    case Many(hs) => hs != []
  }

  function Kept(m: map<Field, Entry>): map<Field, Entry> {
    map f | f in m && Truthy(m[f]) :: m[f]
  }

  function RequestFields(r: RequestInfo): map<Field, Entry> {
    map[Verb := One(r.verb), Path := One(r.path), Version := One(r.version), Referer := One(r.referer),
        Flags := One(r.flags), ExtraHeaders := Many(r.extraHeaders)]
  }

  /** The port is entered only when it is not zero. */
  function ConnectionFields(c: Option<Connection>): map<Field, Entry> {
    if c.None? then map[] else
      map[ServerName := One(c.value.serverName)]
      + (if c.value.login.Some? then
           map[Username := One(c.value.login.value.username), Password := One(c.value.login.value.password),
               Service := One(c.value.login.value.service)]
         else map[])
      + (if c.value.serverPort != 0 then map[ServerPort := One(Number(c.value.serverPort))] else map[])
  }

  function SessionFields(s: Option<Session>): map<Field, Entry> {
    if s.None? then map[] else
      map[UserAgent := One(s.value.userAgent), Proxy := One(s.value.proxy), ProxyBypass := One(s.value.proxyBypass)]
  }

  /** A request with what is known of its connection and its session. */
  function Assemble(process: nat, r: RequestInfo): map<Field, Entry> {
    var all := Kept(RequestFields(r)) + Kept(ConnectionFields(r.connection)) + Kept(SessionFields(SessionKnown(r)));
    all[ProcessSeqid := One(Number(process))]
  }

  /** What is known of a field of a request. */
  function Known(r: RequestInfo, f: Field): Option<Entry> {
    match f
    case Verb => Some(One(r.verb))
    case Path => Some(One(r.path))
    case Version => Some(One(r.version))
    case Referer => Some(One(r.referer))
    case Flags => Some(One(r.flags))
    case ExtraHeaders => Some(Many(r.extraHeaders))
    case ProcessSeqid => None
    case UserAgent => if SessionKnown(r).Some? then Some(One(SessionKnown(r).value.userAgent)) else None
    case Proxy => if SessionKnown(r).Some? then Some(One(SessionKnown(r).value.proxy)) else None
    case ProxyBypass => if SessionKnown(r).Some? then Some(One(SessionKnown(r).value.proxyBypass)) else None
    case ServerName => if r.connection.Some? then Some(One(r.connection.value.serverName)) else None
    case ServerPort => if r.connection.Some? then Some(One(Number(r.connection.value.serverPort))) else None
    case Username => if LoginKnown(r).Some? then Some(One(LoginKnown(r).value.username)) else None
    case Password => if LoginKnown(r).Some? then Some(One(LoginKnown(r).value.password)) else None
    case Service => if LoginKnown(r).Some? then Some(One(LoginKnown(r).value.service)) else None
  }

  function SessionKnown(r: RequestInfo): Option<Session> {
    if r.connection.Some? then r.connection.value.session else None
  }

  function LoginKnown(r: RequestInfo): Option<Login> {
    if r.connection.Some? then r.connection.value.login else None
  }

  lemma KnownOfRequest(r: RequestInfo, f: Field)
    ensures var m := RequestFields(r);
            && (f in m ==> Known(r, f) == Some(m[f]))
            && (f in m <==> f.Verb? || f.Path? || f.Version? || f.Referer? || f.Flags? || f.ExtraHeaders?)
  {
  }

  predicate Reported(m: map<Field, Entry>, r: RequestInfo, f: Field) {
    if f in Kept(m) then Some(m[f]) == Known(r, f) else Known(r, f).None? || !Truthy(Known(r, f).value)
  }

  lemma KnownOfConnection(r: RequestInfo, f: Field)
    ensures var m := ConnectionFields(r.connection);
            if f.ServerName? || f.Username? || f.Password? || f.Service? || f.ServerPort? then Reported(m, r, f)
            else f !in m
  {
  }

  lemma KnownOfSession(r: RequestInfo, f: Field)
    ensures var m := SessionFields(SessionKnown(r));
            if f.UserAgent? || f.Proxy? || f.ProxyBypass? then Reported(m, r, f) else f !in m
  {
  }

  /** The report says every field that is known and not empty, and nothing else. */
  lemma AssembledExact(process: nat, r: RequestInfo, f: Field)
    ensures f in Assemble(process, r) <==> f.ProcessSeqid? || (Known(r, f).Some? && Truthy(Known(r, f).value))
    ensures f in Assemble(process, r) ==>
              Assemble(process, r)[f] == if f.ProcessSeqid? then One(Number(process)) else Known(r, f).value
  {
    KnownOfRequest(r, f);
    KnownOfConnection(r, f);
    KnownOfSession(r, f);
  }

  datatype Report = Report(requests: seq<map<Field, Entry>>, crackedUrls: map<string, set<nat>>)

  /** From the calls to the report; None: a call fails. */
  method GetHttpInfo(es: seq<Event>) returns (result: Option<Report>)
    ensures result.None? <==> exists i :: 0 <= i < |es| && FailsAt(es, i)
    ensures result.Some? ==>
              && |result.value.requests| == |RequestKeys(es)|
              && (forall i :: 0 <= i < |RequestKeys(es)| ==> Reports(es, RequestKeys(es)[i], result.value.requests[i]))
              && result.value.crackedUrls == Urls(es)
  {
    var tables := new Handles();
    var ok, cracked := RecordAll(tables, es);
    if !ok {
      return None;
    }
    var requests := Assembled(tables, es);
    result := Some(Report(requests, cracked));
  }

  /** The loop over all calls; false: one of them fails. */
  method RecordAll(tables: Handles, es: seq<Event>) returns (ok: bool, cracked: map<string, set<nat>>)
    requires tables.Valid() && tables.view == map[] && tables.order == [] && tables.owner == map[]
    modifies tables
    ensures ok <==> forall i :: 0 <= i < |es| ==> !FailsAt(es, i)
    ensures ok ==> tables.Valid() && tables.view == Table(es) && tables.order == RequestKeys(es) && cracked == Urls(es)
  {
    cracked := map[];
    for i := 0 to |es|
      invariant fresh(tables.owner.Keys) && tables.Valid()
      invariant tables.view == Table(es[..i]) && tables.order == RequestKeys(es[..i]) && cracked == Urls(es[..i])
      invariant forall j :: 0 <= j < i ==> !FailsAt(es, j)
    {
      ok, cracked := Record(tables, cracked, es[..i], es[i]);
      if !ok {
        assert FailsAt(es, i);
        return;
      }
      assert es[..i + 1] == es[..i] + [es[i]];
    }
    assert es[..|es|] == es;
    ok := true;
  }
}
