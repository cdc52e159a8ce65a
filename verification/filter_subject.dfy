/** What an HTTP exchange answers to the language: which keys it knows, and through which accessor. */
module FilterSubject {
  import opened Sequences
  import opened Wrappers

  // The keys with a fixed name that answer one value, by what they read: the request itself, its
  // URL, the tunnel, the WebSocket, the response, and how the response was timed.
  const REQUEST_KEYS: set<string> := {
    "req.id", "req.method", "req.proto", "req.body", "req.size", "req.timestamp", "req.note", "req.color",
    "req.websocket", "req.gqltype", "req.gqlname"
  }

  const URL_KEYS: set<string> := {
    "req.url", "req.scheme", "req.host", "req.port", "req.path", "req.query", "req.ext",
    "req.grpcservice", "req.grpcmethod"
  }

  const TUNNEL_KEYS: set<string> := {"tunnel.bytesout", "tunnel.bytesin"}

  const WEBSOCKET_KEYS: set<string> := {"ws.messages", "ws.subprotocol", "ws.closecode"}

  const RESPONSE_KEYS: set<string> := {
    "res.statuscode", "res.statusreason", "res.proto", "res.body", "res.size", "res.duration",
    "res.mime", "res.type", "res.streamed", "res.gqlerrors", "res.grpcstatus"
  }

  const TIMING_KEYS: set<string> := {
    "res.ttfb", "res.blocked", "res.dns", "res.connect", "res.tls", "res.send", "res.wait", "res.receive",
    "res.reused", "res.serverip", "res.tlsversion", "res.alpn"
  }

  predicate IsStatic(key: string) {
    || key in REQUEST_KEYS || key in URL_KEYS || key == "req.tunnel" || key in TUNNEL_KEYS || key in WEBSOCKET_KEYS
    || key in RESPONSE_KEYS || key in TIMING_KEYS
  }

  const DYNAMIC_PREFIXES: seq<string> := [
    "req.header.", "res.header.", "res.trailer.", "req.cookie.", "res.cookie.", "req.query.", "req.form."
  ]

  // The prefix and the item a dynamic key names.
  function SplitDynamic(key: string, prefixes: seq<string> := DYNAMIC_PREFIXES): Option<(string, string)> {
    if prefixes == [] then None
    else if HasPrefix(key, prefixes[0]) && |key| > |prefixes[0]| then
      Some((prefixes[0], key[|prefixes[0]|..]))
    else SplitDynamic(key, prefixes[1..])
  }

  // A header set: the values sent under each name, in the order a range over the map yields them.
  type Header = seq<(string, seq<string>)>

  // What one part of an exchange reads as, by key, and what it holds under a name, if anything.
  type ByKey = string -> string
  type ByName = string -> Option<string>

  datatype Url = Url(part: ByKey, query: ByName)

  datatype RequestHalf = RequestHalf(
    read: ByKey, url: Option<Url>, header: Header, headerOf: ByName, cookie: ByName, form: ByName, tags: seq<string>)

  datatype ResponseHalf = ResponseHalf(
    read: ByKey, header: Header, headerOf: ByName, trailer: ByName, setCookie: ByName, timings: Option<ByKey>)

  function Lines(h: Header): seq<string> {
    if h == [] then [] else LinesOf(h[0].0, h[0].1) + Lines(h[1..])
  }

  function LinesOf(name: string, values: seq<string>): seq<string> {
    if values == [] then [] else [name + ": " + values[0]] + LinesOf(name, values[1..])
  }

  // What a part that may be missing reads as.
  function ReadOr(part: Option<ByKey>, key: string): string {
    if part.Some? then part.value(key) else ""
  }

  /** One exchange. Any part but the request may be missing, and its keys then read as nothing. */
  datatype HTTPSubject = HTTPSubject(
    req: RequestHalf, res: Option<ResponseHalf>, webSocket: Option<ByKey>, tunnel: Option<ByKey>)
  {
    // What a dynamic key names, if it is there.
    function Item(kind: string, name: string): Option<string> {
      if kind == "req.header." then req.headerOf(name)
      else if kind == "req.cookie." then req.cookie(name)
      else if kind == "req.form." then req.form(name)
      else if kind == "req.query." then (if req.url.Some? then req.url.value.query(name) else None)
      else if res.None? then None
      else if kind == "res.header." then res.value.headerOf(name)
      else if kind == "res.trailer." then res.value.trailer(name)
      else res.value.setCookie(name)
    }

    function Timings(): Option<ByKey> {
      if res.Some? then res.value.timings else None
    }

    // What a static key reads as.
    function Static(key: string): string {
      if key in REQUEST_KEYS then req.read(key)
      else if key in URL_KEYS then (if req.url.Some? then req.url.value.part(key) else "")
      else if key == "req.tunnel" then (if tunnel.Some? then "true" else "")
      else if key in TUNNEL_KEYS then ReadOr(tunnel, key)
      else if key in WEBSOCKET_KEYS then ReadOr(webSocket, key)
      else if key in RESPONSE_KEYS then (if res.Some? then res.value.read(key) else "")
      else ReadOr(Timings(), key)
    }

    // What a dynamic key reads as.
    function Dynamic(kind: string, name: string): string {
      if Item(kind, name).Some? then Item(kind, name).value else ""
    }

    function Field(key: string): Option<string> {
      match SplitDynamic(key)
      case Some((kind, name)) => Some(Dynamic(kind, name))
      case None => if IsStatic(key) then Some(Static(key)) else None
    }

    function Values(key: string): Option<seq<string>> {
      if key == "req.tag" || key == "req.tags" then Some(req.tags) else None
    }

    function Headers(key: string): Option<Header> {
      if key == "req.headers" then Some(req.header)
      else if key == "res.headers" then Some(if res.None? then [] else res.value.header)
      else None
    }

    function Exists(key: string): Option<bool> {
      match SplitDynamic(key)
      case Some((kind, name)) => Some(Item(kind, name).Some?)
      case None =>
        if Values(key).Some? then Some(Values(key).value != [])
        else if Field(key).Some? then Some(Field(key).value != "")
        else if Headers(key).Some? then Some(Headers(key).value != [])
        else None
    }

    // Every text a bare word may match.
    function Text(): seq<string> {
      [req.read("req.method"), if req.url.Some? then req.url.value.part("req.url") else "",
       req.read("req.body"), req.read("req.note")]
      + req.tags + Lines(req.header)
      + if res.None? then []
        else [res.value.read("res.statusreason"), res.value.read("res.body")] + Lines(res.value.header)
    }

    // Whether a match can evaluate key, asked through the same accessors a match asks.
    predicate Known(key: string) {
      Exists(key).Some? || Headers(key).Some? || Values(key).Some? || Field(key).Some?
    }
  }

  // The keys any exchange answers.
  predicate InVocabulary(key: string) {
    || SplitDynamic(key).Some? || IsStatic(key)
    || key == "req.tag" || key == "req.tags" || key == "req.headers" || key == "res.headers"
  }

  /**
   * Which keys are known is the same for every exchange, whatever parts of it are missing, and
   * whatever is known answers `exists`.
   */
  lemma VocabularyIsFixed(s: HTTPSubject, z: HTTPSubject, key: string)
    ensures s.Known(key) <==> InVocabulary(key)
    ensures s.Known(key) == z.Known(key)
    ensures s.Known(key) <==> s.Exists(key).Some?
    ensures s.Known(key) <==> s.Headers(key).Some? || s.Values(key).Some? || s.Field(key).Some?
    ensures s.Headers(key).Some? <==> z.Headers(key).Some?
    ensures s.Values(key).Some? <==> z.Values(key).Some?
  {
  }

  predicate OfResponse(key: string) {
    || key in RESPONSE_KEYS || key in TIMING_KEYS || key == "res.headers"
    || (SplitDynamic(key).Some? && HasPrefix(key, "res."))
  }

  // A key that reads the request, the tunnel or the WebSocket does not start as one of the response does.
  lemma OtherKeys(key: string)
    requires || key in REQUEST_KEYS || key in URL_KEYS || key == "req.tunnel" || key in TUNNEL_KEYS
             || key in WEBSOCKET_KEYS
    ensures |key| >= 3 && !(key[0] == 'r' && key[2] == 's')
  {
  }

  lemma ResponseKeys(key: string)
    requires key in RESPONSE_KEYS || key in TIMING_KEYS || key == "res.headers"
    ensures HasPrefix(key, "res.") && key[0] == 'r' && key[2] == 's'
  {
  }

  lemma {:induction false} SplitFinds(key: string, prefixes: seq<string>)
    requires SplitDynamic(key, prefixes).Some?
    ensures var kind := SplitDynamic(key, prefixes).value.0; HasPrefix(key, kind) && kind in prefixes
  {
    if !(HasPrefix(key, prefixes[0]) && |key| > |prefixes[0]|) {
      SplitFinds(key, prefixes[1..]);
    }
  }

  /** Without a response every key of one still answers: that there is nothing. */
  lemma NoResponseIsNothing(s: HTTPSubject, key: string)
    requires s.res.None? && OfResponse(key)
    ensures s.Known(key) && s.Exists(key) == Some(false)
    ensures s.Field(key).Some? ==> s.Field(key).value == ""
    ensures s.Headers(key).Some? ==> s.Headers(key).value == []
  {
    if SplitDynamic(key).Some? && HasPrefix(key, "res.") {
      var kind := SplitDynamic(key).value.0;
      SplitFinds(key, DYNAMIC_PREFIXES);
      assert key[..|kind|][2] == key[2] == key[..4][2] == 's';
    } else {
      ResponseKeys(key);
      if key in REQUEST_KEYS || key in URL_KEYS || key == "req.tunnel" || key in TUNNEL_KEYS || key in WEBSOCKET_KEYS {
        OtherKeys(key);
      }
    }
  }

  // ---- which part answers which key --------------------------------------

  // No two of the prefixes agree on their third and fifth letters.
  predicate Marked(key: string, third: char, fifth: char) {
    |key| > 4 && key[2] == third && key[4] == fifth
  }

  lemma MarkedAlike(key: string, prefix: string)
    requires HasPrefix(key, prefix) && |prefix| > 4
    ensures Marked(key, prefix[2], prefix[4])
  {
    assert key[..|prefix|][2] == key[2] && key[..|prefix|][4] == key[4];
  }

  lemma {:induction false} SplitsAt(kind: string, name: string, prefixes: seq<string>)
    requires name != "" && |kind| > 4 && kind in prefixes
    requires forall i :: 0 <= i < |prefixes| && prefixes[i] != kind ==> |prefixes[i]| > 4
    requires forall i :: 0 <= i < |prefixes| && prefixes[i] != kind ==> !Marked(prefixes[i], kind[2], kind[4])
    ensures SplitDynamic(kind + name, prefixes) == Some((kind, name))
  {
    var key, first := kind + name, prefixes[0];
    assert key[2] == kind[2] && key[4] == kind[4];
    if first == kind {
      assert key[..|kind|] == kind && key[|kind|..] == name;
    } else {
      if HasPrefix(key, first) {
        MarkedAlike(key, first);
      }
      SplitsAt(kind, name, prefixes[1..]);
    }
  }

  lemma SplitsDynamic(kind: string, name: string)
    requires name != "" && kind in DYNAMIC_PREFIXES
    ensures SplitDynamic(kind + name) == Some((kind, name))
  {
    SplitsAt(kind, name, DYNAMIC_PREFIXES);
  }

  function OrNothing(v: Option<string>): string {
    if v.Some? then v.value else ""
  }

  // The key answers with what is there under a name, or with nothing.
  predicate Answers(s: HTTPSubject, key: string, item: Option<string>) {
    s.Exists(key) == Some(item.Some?) && s.Field(key) == Some(OrNothing(item))
  }

  /** A dynamic key of a request reads the one set its prefix names, under the name after it. */
  lemma DynamicOfRequest(s: HTTPSubject, name: string)
    requires name != ""
    ensures Answers(s, "req.header." + name, s.req.headerOf(name))
    ensures Answers(s, "req.cookie." + name, s.req.cookie(name))
    ensures Answers(s, "req.form." + name, s.req.form(name))
    ensures Answers(s, "req.query." + name, if s.req.url.Some? then s.req.url.value.query(name) else None)
  {
    SplitsDynamic("req.header.", name);
    SplitsDynamic("req.cookie.", name);
    SplitsDynamic("req.form.", name);
    SplitsDynamic("req.query.", name);
  }

  /** And so does one of a response, with nothing where there is none. */
  lemma DynamicOfResponse(s: HTTPSubject, name: string)
    requires name != ""
    ensures Answers(s, "res.header." + name, if s.res.Some? then s.res.value.headerOf(name) else None)
    ensures Answers(s, "res.trailer." + name, if s.res.Some? then s.res.value.trailer(name) else None)
    ensures Answers(s, "res.cookie." + name, if s.res.Some? then s.res.value.setCookie(name) else None)
  {
    SplitsDynamic("res.header.", name);
    SplitsDynamic("res.trailer.", name);
    SplitsDynamic("res.cookie.", name);
  }

  predicate DotFree(key: string, start: nat) {
    forall i :: start <= i < |key| ==> key[i] != '.'
  }

  lemma PrefixesEndInDots(key: string, kind: string)
    requires kind in DYNAMIC_PREFIXES && HasPrefix(key, kind)
    ensures !DotFree(key, 7)
  {
    var n := |kind| - 1;
    assert n > 7 && kind[n] == '.';
    assert key[n] == key[..|kind|][n];
  }

  // A dynamic key has a dot further on, and no other key does.
  lemma NotDynamic(key: string)
    requires DotFree(key, 7)
    ensures SplitDynamic(key) == None
  {
    if SplitDynamic(key).Some? {
      SplitFinds(key, DYNAMIC_PREFIXES);
      PrefixesEndInDots(key, SplitDynamic(key).value.0);
    }
  }

  lemma PartKeys(key: string)
    ensures key in REQUEST_KEYS ==> DotFree(key, 7)
    ensures key in URL_KEYS ==> DotFree(key, 7) && key !in REQUEST_KEYS
    ensures key == "req.tunnel" || key in TUNNEL_KEYS ==> DotFree(key, 7) && key !in REQUEST_KEYS && key !in URL_KEYS
    ensures key in TUNNEL_KEYS ==> key != "req.tunnel"
    ensures key in WEBSOCKET_KEYS ==>
              DotFree(key, 7) && key !in REQUEST_KEYS && key !in URL_KEYS && key !in TUNNEL_KEYS && key != "req.tunnel"
  {
  }

  /** The keys of the request read it; those of its URL, a tunnel and a WebSocket that part, or nothing without it. */
  lemma PartsAreRead(s: HTTPSubject, key: string)
    ensures key in REQUEST_KEYS ==> s.Field(key) == Some(s.req.read(key))
    ensures key in URL_KEYS ==> s.Field(key) == Some(if s.req.url.Some? then s.req.url.value.part(key) else "")
    ensures key in TUNNEL_KEYS ==> s.Field(key) == Some(if s.tunnel.Some? then s.tunnel.value(key) else "")
    ensures key in WEBSOCKET_KEYS ==> s.Field(key) == Some(if s.webSocket.Some? then s.webSocket.value(key) else "")
    ensures key == "req.tunnel" ==> s.Field(key) == Some(if s.tunnel.Some? then "true" else "")
  {
    PartKeys(key);
    if DotFree(key, 7) {
      NotDynamic(key);
    }
  }

  lemma ResponsePartKeys(key: string)
    requires key in RESPONSE_KEYS || key in TIMING_KEYS
    ensures DotFree(key, 7) && (key in TIMING_KEYS ==> key !in RESPONSE_KEYS)
  {
  }

  /** Those of a response and its timing read them, in the same way. */
  lemma ResponseIsRead(s: HTTPSubject, key: string)
    requires key in RESPONSE_KEYS || key in TIMING_KEYS
    ensures key in RESPONSE_KEYS ==> s.Field(key) == Some(if s.res.Some? then s.res.value.read(key) else "")
    ensures key in TIMING_KEYS ==>
              var timings := if s.res.Some? then s.res.value.timings else None;
              s.Field(key) == Some(if timings.Some? then timings.value(key) else "")
  {
    ResponsePartKeys(key);
    NotDynamic(key);
    ResponseKeys(key);
    if key in REQUEST_KEYS || key in URL_KEYS || key == "req.tunnel" || key in TUNNEL_KEYS || key in WEBSOCKET_KEYS {
      OtherKeys(key);
    }
  }

  /** The two keys of a list read the tags, and are there when it holds any. */
  lemma TagsAreRead(s: HTTPSubject, key: string)
    requires key == "req.tag" || key == "req.tags"
    ensures s.Values(key) == Some(s.req.tags) && s.Exists(key) == Some(s.req.tags != [])
  {
    NotDynamic(key);
  }

  lemma HeaderKeys(key: string)
    requires key == "req.headers" || key == "res.headers"
    ensures DotFree(key, 7) && !IsStatic(key)
  {
  }

  /** And each of those of a header set reads its side's. */
  lemma HeadersAreRead(s: HTTPSubject, key: string)
    requires key == "req.headers" || key == "res.headers"
    ensures var h := if key == "req.headers" then s.req.header else if s.res.Some? then s.res.value.header else [];
            s.Headers(key) == Some(h) && s.Exists(key) == Some(h != [])
  {
    HeaderKeys(key);
    NotDynamic(key);
  }

  // ---- what a bare word is looked for in ---------------------------------

  lemma {:induction false} LinesOfHold(name: string, values: seq<string>, t: string)
    ensures t in LinesOf(name, values) <==> exists j :: 0 <= j < |values| && t == name + ": " + values[j]
  {
    if values != [] {
      LinesOfHold(name, values[1..], t);
      assert values == [values[0]] + values[1..];
      if t in LinesOf(name, values[1..]) {
        var j :| 0 <= j < |values[1..]| && t == name + ": " + values[1..][j];
        assert values[j + 1] == values[1..][j];
      }
      if j :| 0 <= j < |values| && t == name + ": " + values[j] {
        assert j > 0 ==> values[1..][j - 1] == values[j];
      }
    }
  }

  // t is a header as it is sent, its name before its value.
  ghost predicate IsLine(t: string, h: Header) {
    exists i, j :: 0 <= i < |h| && 0 <= j < |h[i].1| && t == h[i].0 + ": " + h[i].1[j]
  }

  lemma {:induction false} LinesHold(h: Header, t: string)
    ensures t in Lines(h) <==> IsLine(t, h)
  {
    if h != [] {
      LinesOfHold(h[0].0, h[0].1, t);
      LinesHold(h[1..], t);
      if IsLine(t, h[1..]) {
        var i, j :| 0 <= i < |h[1..]| && 0 <= j < |h[1..][i].1| && t == h[1..][i].0 + ": " + h[1..][i].1[j];
        assert h[i + 1] == h[1..][i];
      }
      if i, j :| 0 <= i < |h| && 0 <= j < |h[i].1| && t == h[i].0 + ": " + h[i].1[j] {
        assert i > 0 ==> h[1..][i - 1] == h[i];
      }
    }
  }

  /** A bare word is looked for in these texts of an exchange and in no others. */
  lemma TextIs(s: HTTPSubject, t: string)
    ensures t in s.Text() <==>
            || t == s.req.read("req.method") || t == s.req.read("req.body") || t == s.req.read("req.note")
            || t == (if s.req.url.Some? then s.req.url.value.part("req.url") else "")
            || t in s.req.tags || IsLine(t, s.req.header)
            || (s.res.Some?
                && var res := s.res.value;
                   t == res.read("res.statusreason") || t == res.read("res.body") || IsLine(t, res.header))
  {
    LinesHold(s.req.header, t);
    if s.res.Some? {
      LinesHold(s.res.value.header, t);
    }
  }
}
