/** Configuration: which consumers to monitor, and how to reach the NATS server as
    described by a NATS CLI context. Reading files, the environment and decoding
    JSON are inputs to this model. */
module Config {
  import opened Wrappers
  import opened Nats

  /** Identifies a JetStream consumer by its stream and consumer names. */
  datatype ConsumerRef = ConsumerRef(stream: string, consumer: string)

  /** The map key every component uses for a consumer: stream, a slash, consumer. */
  function Key(r: ConsumerRef): string {
    r.stream + "/" + r.consumer
  }

  /** The key is not injective: names that themselves contain '/' can collide. */
  lemma {:induction false} KeyCollides()
    ensures ConsumerRef("a/b", "c") != ConsumerRef("a", "b/c")
    ensures Key(ConsumerRef("a/b", "c")) == Key(ConsumerRef("a", "b/c"))
  {
  }

  datatype Configuration = Configuration(consumers: seq<ConsumerRef>)

  /** What reading and decoding the consumers file produced. `asObject` is the outcome
      of decoding it as an object with a "consumers" array (None: decoding failed; an
      object without that key decodes to the empty list), `asList` that of decoding it
      as a plain array. */
  datatype ConsumersFile =
    | Unreadable
    | Readable(asObject: Option<seq<ConsumerRef>>, asList: Option<seq<ConsumerRef>>)

  datatype LoadError = ReadFailed(path: string) | ParseFailed(path: string) | NoConsumers(path: string)

  /** Load: the object form is tried first, the plain array second, and an empty list
      is refused. */
  function Load(path: string, file: ConsumersFile): (r: Result<Configuration, LoadError>)
    ensures r.Ok? ==> |r.value.consumers| > 0
    ensures file.Unreadable? <==> r == Err(ReadFailed(path))
    ensures file.Readable? && file.asObject.None? && file.asList.None? <==> r == Err(ParseFailed(path))
    ensures file.Readable? && file.asObject.Some? && file.asObject.value == [] ==> r == Err(NoConsumers(path))
    ensures file.Readable? && file.asObject.Some? && file.asObject.value != [] ==> r == Ok(Configuration(file.asObject.value))
    ensures file.Readable? && file.asObject.None? && file.asList.Some? ==>
      r == if file.asList.value == [] then Err(NoConsumers(path)) else Ok(Configuration(file.asList.value))
  {
    match file
    case Unreadable => Err(ReadFailed(path))
    case Readable(asObject, asList) =>
      if asObject.None? && asList.None? then Err(ParseFailed(path))
      else
        var consumers := if asObject.Some? then asObject.value else asList.value;
        if |consumers| == 0 then Err(NoConsumers(path)) else Ok(Configuration(consumers))
  }

  /** The fields of a NATS CLI context file. */
  datatype NatsContext = NatsContext(
    description: string,
    url: string,
    serverUrl: string,
    servers: seq<string>,
    token: string,
    user: string,
    pass: string,
    password: string,
    creds: string,
    nkey: string,
    cert: string,
    key: string,
    ca: string)

  /** What locating, reading and decoding the context file produced. */
  datatype ContextFile = ContextUnreadable | ContextMalformed | ContextDecoded(ctx: NatsContext)

  datatype ContextError =
    | ContextNotSet
    | HomeUnresolved
    | ContextReadFailed(name: string)
    | ContextParseFailed(name: string)
    | MissingServerUrl(name: string)

  datatype Connection = Connection(url: string, options: seq<ConnectOption>)

  /** The first non-empty value, or the empty string when there is none. */
  function FirstNonEmptyOf(values: seq<string>): (r: string)
    ensures r == "" <==> forall i :: 0 <= i < |values| ==> values[i] == ""
    ensures r != "" ==> exists i :: 0 <= i < |values| && values[i] == r && forall j :: 0 <= j < i ==> values[j] == ""
  {
    if values == [] then ""
    else if values[0] != "" then values[0]
    else
      var r := FirstNonEmptyOf(values[1..]);
      assert forall j :: 1 <= j < |values| ==> values[j] == values[1..][j - 1];
      r
  }

  lemma {:induction false} FirstNonEmptyOfPair(a: string, b: string)
    ensures FirstNonEmptyOf([a, b]) == if a != "" then a else b
  {
    assert [a, b][1..] == [b];
    assert [b][1..] == [];
  }

  /** firstNonEmpty: the loop with an early return. */
  method FirstNonEmpty(values: seq<string>) returns (r: string)
    ensures r == FirstNonEmptyOf(values)
    ensures r == "" <==> forall i :: 0 <= i < |values| ==> values[i] == ""
    ensures r != "" ==> exists i :: 0 <= i < |values| && values[i] == r && forall j :: 0 <= j < i ==> values[j] == ""
  {
    var k := 0;
    while k < |values|
      invariant 0 <= k <= |values|
      invariant forall j :: 0 <= j < k ==> values[j] == ""
    {
      if values[k] != "" {
        FirstNonEmptyAt(values, k);
        return values[k];
      }
      k := k + 1;
    }
    return "";
  }

  lemma {:induction false} FirstNonEmptyAt(values: seq<string>, k: nat)
    requires k < |values| && values[k] != ""
    requires forall j :: 0 <= j < k ==> values[j] == ""
    ensures FirstNonEmptyOf(values) == values[k]
  {
    if k > 0 {
      FirstNonEmptyAt(values[1..], k - 1);
    }
  }

  /** The server URL a context names: url, else server_url, else the first of servers. */
  function ContextUrl(ctx: NatsContext): (u: string)
    ensures ctx.url != "" ==> u == ctx.url
    ensures ctx.url == "" && ctx.serverUrl != "" ==> u == ctx.serverUrl
    ensures ctx.url == "" && ctx.serverUrl == "" ==> u == (if |ctx.servers| > 0 then ctx.servers[0] else "")
  {
    FirstNonEmptyOfPair(ctx.url, ctx.serverUrl);
    var u := FirstNonEmptyOf([ctx.url, ctx.serverUrl]);
    if u == "" && |ctx.servers| > 0 then ctx.servers[0] else u
  }

  /** The one authentication option: creds, else token, else user and password. */
  function AuthOption(ctx: NatsContext): (a: Option<ConnectOption>)
    ensures ctx.creds != "" ==> a == Some(UserCredentials(ctx.creds))
    ensures ctx.creds == "" && ctx.token != "" ==> a == Some(Token(ctx.token))
    ensures ctx.creds == "" && ctx.token == "" && ctx.user != "" ==>
      a == Some(UserInfo(ctx.user, if ctx.pass != "" then ctx.pass else ctx.password))
    ensures a.None? <==> ctx.creds == "" && ctx.token == "" && ctx.user == ""
  {
    if ctx.creds != "" then Some(UserCredentials(ctx.creds))
    else if ctx.token != "" then Some(Token(ctx.token))
    else if ctx.user != "" then
      FirstNonEmptyOfPair(ctx.pass, ctx.password);
      Some(UserInfo(ctx.user, FirstNonEmptyOf([ctx.pass, ctx.password])))
    else None
  }

  /** The rank of an option in the order the context's options are appended. */
  function Rank(o: ConnectOption): nat {
    match o
    case WithServers(_) => 0
    case UserCredentials(_) => 1
    case Token(_) => 1
    case UserInfo(_, _) => 1
    case ClientCert(_, _) => 2
    case RootCAs(_) => 3
  }

  function OptionIf(c: bool, o: ConnectOption): seq<ConnectOption> {
    if c then [o] else []
  }

  /** The options a context yields, in order: servers, authentication, client certificate, CA. */
  function ContextOptions(ctx: NatsContext): seq<ConnectOption> {
    var auth := AuthOption(ctx);
    OptionIf(|ctx.servers| > 0, WithServers(ctx.servers))
    + (if auth.Some? then [auth.value] else [])
    + OptionIf(ctx.cert != "" && ctx.key != "", ClientCert(ctx.cert, ctx.key))
    + OptionIf(ctx.ca != "", RootCAs(ctx.ca))
  }

  predicate RankSorted(opts: seq<ConnectOption>) {
    forall i, j :: 0 <= i < j < |opts| ==> Rank(opts[i]) < Rank(opts[j])
  }

  /** Every option of `opts` ranks below `r`. */
  predicate RanksBelow(opts: seq<ConnectOption>, r: nat) {
    forall i :: 0 <= i < |opts| ==> Rank(opts[i]) < r
  }

  /** At most one option, of rank `r`. */
  predicate Piece(p: seq<ConnectOption>, r: nat) {
    |p| <= 1 && forall i :: 0 <= i < |p| ==> Rank(p[i]) == r
  }

  /** Appending a piece of rank `r` to options ranked below `r` keeps the order. */
  lemma {:induction false} AppendPiece(opts: seq<ConnectOption>, p: seq<ConnectOption>, r: nat)
    requires RankSorted(opts) && RanksBelow(opts, r) && Piece(p, r)
    ensures RankSorted(opts + p) && RanksBelow(opts + p, r + 1)
  {
    var ext := opts + p;
    forall i, j | 0 <= i < j < |ext| ensures Rank(ext[i]) < Rank(ext[j]) {
      assert ext[i] == opts[i];
      if j < |opts| {
        assert ext[j] == opts[j];
      } else {
        assert ext[j] == p[j - |opts|];
      }
    }
    forall i | 0 <= i < |ext| ensures Rank(ext[i]) < r + 1 {
      if i < |opts| {
        assert ext[i] == opts[i];
      } else {
        assert ext[i] == p[i - |opts|];
      }
    }
  }

  /** Four pieces of ranks 0 to 3 in a row are in rank order. */
  lemma {:induction false} PiecesInOrder(s: seq<ConnectOption>, a: seq<ConnectOption>, c: seq<ConnectOption>, d: seq<ConnectOption>)
    requires Piece(s, 0) && Piece(a, 1) && Piece(c, 2) && Piece(d, 3)
    ensures RankSorted(s + a + c + d)
  {
    AppendPiece([], s, 0);
    assert [] + s == s;
    AppendPiece(s, a, 1);
    AppendPiece(s + a, c, 2);
    AppendPiece(s + a + c, d, 3);
  }

  /** The options come in the order servers, authentication, client certificate, CA,
      so there is at most one of each kind and in particular at most one authentication option. */
  lemma {:induction false} ContextOptionsOrder(ctx: NatsContext)
    ensures RankSorted(ContextOptions(ctx))
  {
    var auth := AuthOption(ctx);
    var s := OptionIf(|ctx.servers| > 0, WithServers(ctx.servers));
    var a := if auth.Some? then [auth.value] else [];
    var c := OptionIf(ctx.cert != "" && ctx.key != "", ClientCert(ctx.cert, ctx.key));
    var d := OptionIf(ctx.ca != "", RootCAs(ctx.ca));
    PiecesInOrder(s, a, c, d);
  }

  /** Whether the context asks for option `o`. */
  predicate Wanted(ctx: NatsContext, o: ConnectOption) {
    || (|ctx.servers| > 0 && o == WithServers(ctx.servers))
    || AuthOption(ctx) == Some(o)
    || (ctx.cert != "" && ctx.key != "" && o == ClientCert(ctx.cert, ctx.key))
    || (ctx.ca != "" && o == RootCAs(ctx.ca))
  }

  /** The context yields exactly the options it asks for. */
  lemma {:induction false} ContextOptionsMembers(ctx: NatsContext)
    ensures forall o :: o in ContextOptions(ctx) <==> Wanted(ctx, o)
  {
    var auth := AuthOption(ctx);
    var s := OptionIf(|ctx.servers| > 0, WithServers(ctx.servers));
    var a := if auth.Some? then [auth.value] else [];
    var c := OptionIf(ctx.cert != "" && ctx.key != "", ClientCert(ctx.cert, ctx.key));
    var d := OptionIf(ctx.ca != "", RootCAs(ctx.ca));
    assert ContextOptions(ctx) == s + a + c + d;
    forall o ensures o in s + a + c + d <==> o in s || o in a || o in c || o in d {
    }
  }

  /** Which options the context yields: servers first exactly when servers are listed,
      the authentication option by precedence, a client certificate only with both a
      certificate and a key, a CA exactly when one is named; the nkey is never used. */
  lemma {:induction false} ContextOptionsContents(ctx: NatsContext)
    ensures var opts := ContextOptions(ctx);
      && ((|opts| > 0 && opts[0] == WithServers(ctx.servers)) <==> |ctx.servers| > 0)
      && (forall o :: o in opts && o.WithServers? ==> o == WithServers(ctx.servers))
      && (forall o :: o in opts && Rank(o) == 1 ==> AuthOption(ctx) == Some(o))
      && (AuthOption(ctx).Some? ==> AuthOption(ctx).value in opts)
      && (ClientCert(ctx.cert, ctx.key) in opts <==> ctx.cert != "" && ctx.key != "")
      && (forall o :: o in opts && o.ClientCert? ==> o == ClientCert(ctx.cert, ctx.key))
      && (RootCAs(ctx.ca) in opts <==> ctx.ca != "")
      && (forall o :: o in opts && o.RootCAs? ==> o == RootCAs(ctx.ca))
  {
    var opts := ContextOptions(ctx);
    ContextOptionsMembers(ctx);
    if |ctx.servers| > 0 {
      assert opts[0] == WithServers(ctx.servers);
    } else if |opts| > 0 {
      assert opts[0] in opts;
      assert Wanted(ctx, opts[0]);
    }
  }

  /** LoadNATSFromContext. `contextName` is the NATS_CONTEXT variable, `home` the user's
      home directory if it resolved, and `file` the outcome of reading and decoding
      the context file under it. */
  method LoadNatsFromContext(contextName: string, home: Option<string>, file: ContextFile)
    returns (r: Result<Connection, ContextError>)
    ensures contextName == "" ==> r == Err(ContextNotSet)
    ensures contextName != "" && home.None? ==> r == Err(HomeUnresolved)
    ensures contextName != "" && home.Some? && file.ContextUnreadable? ==> r == Err(ContextReadFailed(contextName))
    ensures contextName != "" && home.Some? && file.ContextMalformed? ==> r == Err(ContextParseFailed(contextName))
    ensures contextName != "" && home.Some? && file.ContextDecoded? ==>
      r == if ContextUrl(file.ctx) == "" then Err(MissingServerUrl(contextName))
           else Ok(Connection(ContextUrl(file.ctx), ContextOptions(file.ctx)))
  {
    if contextName == "" {
      return Err(ContextNotSet);
    }
    if home.None? {
      return Err(HomeUnresolved);
    }
    if file.ContextUnreadable? {
      return Err(ContextReadFailed(contextName));
    }
    if file.ContextMalformed? {
      return Err(ContextParseFailed(contextName));
    }
    var ctx := file.ctx;
    FirstNonEmptyOfPair(ctx.url, ctx.serverUrl);
    var natsUrl := FirstNonEmpty([ctx.url, ctx.serverUrl]);
    if natsUrl == "" && |ctx.servers| > 0 {
      natsUrl := ctx.servers[0];
    }
    if natsUrl == "" {
      return Err(MissingServerUrl(contextName));
    }
    var opts := BuildOptions(ctx);
    assert natsUrl == ContextUrl(ctx);
    return Ok(Connection(natsUrl, opts));
  }

  /** The option list LoadNATSFromContext appends to, one option at a time. */
  method BuildOptions(ctx: NatsContext) returns (opts: seq<ConnectOption>)
    ensures opts == ContextOptions(ctx)
  {
    ghost var auth := AuthOption(ctx);
    ghost var s := OptionIf(|ctx.servers| > 0, WithServers(ctx.servers));
    ghost var a := if auth.Some? then [auth.value] else [];
    ghost var c := OptionIf(ctx.cert != "" && ctx.key != "", ClientCert(ctx.cert, ctx.key));
    ghost var d := OptionIf(ctx.ca != "", RootCAs(ctx.ca));
    assert ContextOptions(ctx) == s + a + c + d;
    opts := [];
    if |ctx.servers| > 0 {
      opts := opts + [WithServers(ctx.servers)];
    }
    assert opts == s;
    if ctx.creds != "" {
      opts := opts + [UserCredentials(ctx.creds)];
    } else if ctx.token != "" {
      opts := opts + [Token(ctx.token)];
    } else if ctx.user != "" {
      FirstNonEmptyOfPair(ctx.pass, ctx.password);
      var password := FirstNonEmpty([ctx.pass, ctx.password]);
      opts := opts + [UserInfo(ctx.user, password)];
    } else {
      assert a == [];
    }
    assert opts == s + a;
    if ctx.cert != "" && ctx.key != "" {
      opts := opts + [ClientCert(ctx.cert, ctx.key)];
    }
    assert opts == s + a + c;
    if ctx.ca != "" {
      opts := opts + [RootCAs(ctx.ca)];
    }
  }
}
