/** The REST client set-up: splitting the cluster address "h1:p1,h2:p2" into hosts, and the
    request and HTTP-client settings chosen depending on whether the scheme is exactly
    "https". Java's `String.split` and `Integer.parseInt` are modelled as the code relies
    on them. */
module AutoConfiguration {
  import opened Values

  // ---------------------------------------------------------------------------------------
  // Java's String.split on a one-character separator

  /** The position of the first `c` in `s`, or `|s|` when there is none. */
  function IndexOf(s: string, c: char): (i: nat)
    ensures i <= |s|
    ensures i < |s| ==> s[i] == c
    ensures forall j :: 0 <= j < i ==> s[j] != c
    decreases |s|
  {
    if s == [] then 0
    else if s[0] == c then 0
    else 1 + IndexOf(s[1..], c)
  }

  /** Every piece of `s` between separators, empty ones included: k separators give
      k + 1 pieces. */
  function Pieces(s: string, c: char): (r: seq<string>)
    ensures |r| >= 1
    ensures forall k :: 0 <= k < |r| ==> c !in r[k]
    decreases |s|
  {
    var i := IndexOf(s, c);
    if i == |s| then [s] else [s[..i]] + Pieces(s[i + 1..], c)
  }

  /** The pieces joined back with the separator between them. */
  function Join(parts: seq<string>, c: char): string
  {
    if parts == [] then ""
    else if |parts| == 1 then parts[0]
    else parts[0] + [c] + Join(parts[1..], c)
  }

  /** Removes the empty pieces at the end of the list, and only those. */
  function DropTrailingEmpty(xs: seq<string>): (r: seq<string>)
    ensures r <= xs
    ensures forall k :: |r| <= k < |xs| ==> xs[k] == ""
    ensures r == [] || r[|r| - 1] != ""
  {
    if xs != [] && xs[|xs| - 1] == "" then DropTrailingEmpty(xs[..|xs| - 1]) else xs
  }

  /** A non-empty piece and every piece before it survive the removal. */
  lemma DropKeepsNonEmpty(xs: seq<string>, k: int)
    requires 0 <= k < |xs| && xs[k] != ""
    ensures |DropTrailingEmpty(xs)| > k
    ensures DropTrailingEmpty(xs)[..k + 1] == xs[..k + 1]
  {
  }

  /** `s.split(c)` with the default limit: the whole string when `c` does not occur
      (so "" gives [""]), otherwise every piece with the trailing empty ones removed
      (so "," gives []). */
  function JavaSplit(s: string, c: char): (r: seq<string>)
    ensures c !in s ==> r == [s]
    ensures c in s ==> r == DropTrailingEmpty(Pieces(s, c))
    ensures forall k :: 0 <= k < |r| ==> c !in r[k]
  {
    if c !in s then [s] else DropTrailingEmpty(Pieces(s, c))
  }

  /** Splitting loses nothing: joining the pieces gives the string back. */
  lemma {:induction false} JoinPieces(s: string, c: char)
    ensures Join(Pieces(s, c), c) == s
    decreases |s|
  {
    var i := IndexOf(s, c);
    if i < |s| {
      var rest := Pieces(s[i + 1..], c);
      JoinPieces(s[i + 1..], c);
      assert Pieces(s, c) == [s[..i]] + rest;
      assert Pieces(s, c)[1..] == rest;
      assert s == s[..i] + [c] + s[i + 1..];
    }
  }

  /** Joining pieces that hold no separator, then splitting, gives the pieces back. */
  lemma {:induction false} PiecesJoin(parts: seq<string>, c: char)
    requires |parts| >= 1
    requires forall k :: 0 <= k < |parts| ==> c !in parts[k]
    ensures Pieces(Join(parts, c), c) == parts
    decreases |parts|
  {
    var s := Join(parts, c);
    if |parts| == 1 {
      assert s == parts[0];
      assert c !in s;
    } else {
      var p0 := parts[0];
      var tail := Join(parts[1..], c);
      assert s == p0 + [c] + tail;
      PiecesJoin(parts[1..], c);
      var i := IndexOf(s, c);
      assert s[|p0|] == c;
      assert forall j :: 0 <= j < |p0| ==> s[j] == p0[j] && p0[j] != c;
      assert i == |p0|;
      assert s[..i] == p0;
      assert s[i + 1..] == tail;
    }
  }

  /** Splitting at the first separator: the text before it is the first piece. */
  lemma PiecesCons(a: string, b: string, c: char)
    requires c !in a
    ensures Pieces(a + [c] + b, c) == [a] + Pieces(b, c)
  {
    var s := a + [c] + b;
    var i := IndexOf(s, c);
    assert s[|a|] == c;
    assert forall j :: 0 <= j < |a| ==> s[j] == a[j] && a[j] != c;
    assert i == |a|;
    assert s[..i] == a;
    assert s[i + 1..] == b;
  }

  /** Splitting the join of separator-free pieces whose last piece is not empty gives
      the pieces back. */
  lemma SplitJoined(parts: seq<string>, c: char)
    requires |parts| >= 1
    requires forall k :: 0 <= k < |parts| ==> c !in parts[k]
    requires parts[|parts| - 1] != ""
    ensures JavaSplit(Join(parts, c), c) == parts
  {
    PiecesJoin(parts, c);
    var s := Join(parts, c);
    if c !in s {
      var i := IndexOf(s, c);
      assert i == |s|;
    }
  }

  // ---------------------------------------------------------------------------------------
  // Java's Integer.parseInt

  predicate IsDigit(ch: char) { '0' <= ch <= '9' }

  predicate AllDigits(ds: string) { forall k :: 0 <= k < |ds| ==> IsDigit(ds[k]) }

  /** The value of a decimal digit string, most significant digit first. */
  function DigitsValue(ds: string): nat
    requires AllDigits(ds)
  {
    if ds == [] then 0 else DigitsValue(ds[..|ds| - 1]) * 10 + (ds[|ds| - 1] as int - '0' as int)
  }

  /** The text `Integer.parseInt` accepts, leaving the range aside: an optional sign
      followed by at least one decimal digit. */
  predicate WellFormedInt(s: string)
  {
    || (s != "" && AllDigits(s))
    || (|s| > 1 && (s[0] == '-' || s[0] == '+') && AllDigits(s[1..]))
  }

  /** `Integer.parseInt(s)`: an optional sign, then at least one decimal digit, with the
      value inside Java's int range; anything else throws `NumberFormatException`. */
  function ParseInt(s: string): (r: Result<int32>)
    ensures r.Failure? ==> r.error == NumberFormatException(s)
    ensures r.Success? ==> WellFormedInt(s)
    ensures s == "" || s == "-" || s == "+" ==> r.Failure?
    ensures AllDigits(s) && s != "" ==>
      && (r.Success? <==> DigitsValue(s) <= MaxInt32)
      && (r.Success? ==> r.value == DigitsValue(s))
    ensures |s| > 1 && s[0] == '+' && AllDigits(s[1..]) ==>
      && (r.Success? <==> DigitsValue(s[1..]) <= MaxInt32)
      && (r.Success? ==> r.value == DigitsValue(s[1..]))
    ensures |s| > 1 && s[0] == '-' && AllDigits(s[1..]) ==>
      && (r.Success? <==> DigitsValue(s[1..]) <= -MinInt32)
      && (r.Success? ==> r.value == -(DigitsValue(s[1..]) as int))
    ensures r.Success? && r.value < 0 ==> s[0] == '-'
  {
    var signed := |s| > 0 && (s[0] == '-' || s[0] == '+');
    var digits := if signed then s[1..] else s;
    if |digits| == 0 || !AllDigits(digits) then
      Failure(NumberFormatException(s))
    else
      var magnitude := DigitsValue(digits);
      var v: int := if signed && s[0] == '-' then -(magnitude as int) else magnitude;
      if MinInt32 <= v <= MaxInt32 then Success(v) else Failure(NumberFormatException(s))
  }

  function DigitChar(d: nat): char
    requires d < 10
  {
    ('0' as int + d) as char
  }

  /** The decimal rendering of a natural number, without leading zeros. */
  function ShowNat(n: nat): (s: string)
    ensures |s| >= 1 && AllDigits(s)
    decreases n
  {
    if n < 10 then [DigitChar(n)] else ShowNat(n / 10) + [DigitChar(n % 10)]
  }

  lemma {:induction false} DigitsValueOfShowNat(n: nat)
    ensures DigitsValue(ShowNat(n)) == n
    decreases n
  {
    var s := ShowNat(n);
    if n >= 10 {
      DigitsValueOfShowNat(n / 10);
      assert s[..|s| - 1] == ShowNat(n / 10);
    }
  }

  /** `parseInt` reads back every non-negative int from its decimal rendering. */
  lemma ParseShowNat(n: nat)
    requires n <= MaxInt32
    ensures ParseInt(ShowNat(n)) == Success(n)
  {
    DigitsValueOfShowNat(n);
  }

  // ---------------------------------------------------------------------------------------
  // Cluster address

  /** A node the client talks to; the scheme is the configured one, passed as given. */
  datatype HttpHost = HttpHost(hostname: string, port: int32, scheme: string)

  /** One address entry: the host is piece 0 of `element.split(":")` and the port piece 1,
      parsed as an int; later pieces are ignored and nothing is trimmed. A missing piece is
      an out-of-bounds array access. */
  function ParseEntry(element: string, scheme: string): (r: Result<HttpHost>)
    ensures var parts := JavaSplit(element, ':');
            r.Success? <==> |parts| >= 2 && ParseInt(parts[1]).Success?
    ensures var parts := JavaSplit(element, ':');
            r.Success? ==> r.value == HttpHost(parts[0], ParseInt(parts[1]).value, scheme)
    ensures var parts := JavaSplit(element, ':');
            |parts| < 2 ==> r == Failure(ArrayIndexOutOfBoundsException(|parts|))
    ensures var parts := JavaSplit(element, ':');
            |parts| >= 2 && ParseInt(parts[1]).Failure? ==> r == Failure(ParseInt(parts[1]).error)
    ensures ':' !in element ==> r == Failure(ArrayIndexOutOfBoundsException(1))
  {
    var parts := JavaSplit(element, ':');
    if |parts| < 1 then Failure(ArrayIndexOutOfBoundsException(0))
    else if |parts| < 2 then Failure(ArrayIndexOutOfBoundsException(1))
    else
      match ParseInt(parts[1])
      case Failure(e) => Failure(e)
      case Success(port) => Success(HttpHost(parts[0], port, scheme))
  }

  /** The loop over the address entries: one host per entry, in order; the first entry
      that fails ends the loop with its exception. */
  function ParseEntries(entries: seq<string>, scheme: string): (r: Result<seq<HttpHost>>)
    ensures r.Success? <==> forall i :: 0 <= i < |entries| ==> ParseEntry(entries[i], scheme).Success?
    ensures r.Success? ==> |r.value| == |entries|
    ensures r.Success? ==> forall i :: 0 <= i < |entries| ==> r.value[i] == ParseEntry(entries[i], scheme).value
    ensures r.Failure? ==> exists i :: && 0 <= i < |entries|
                                       && ParseEntry(entries[i], scheme) == Failure(r.error)
                                       && (forall j :: 0 <= j < i ==> ParseEntry(entries[j], scheme).Success?)
  {
    if entries == [] then Success([])
    else
      match ParseEntry(entries[0], scheme)
      case Failure(e) => Failure(e)
      case Success(host) =>
        match ParseEntries(entries[1..], scheme)
        case Failure(e) =>
          ghost var i :| 0 <= i < |entries[1..]| && ParseEntry(entries[1..][i], scheme) == Failure(e)
                         && forall j :: 0 <= j < i ==> ParseEntry(entries[1..][j], scheme).Success?;
          assert ParseEntry(entries[i + 1], scheme) == Failure(e);
          Failure(e)
        case Success(hosts) => Success([host] + hosts)
  }

  /** Splits the configured address on ',' and parses every entry. */
  function ParseAddress(address: string, scheme: string): (r: Result<seq<HttpHost>>)
    ensures var entries := JavaSplit(address, ',');
            r.Success? <==> forall i :: 0 <= i < |entries| ==> ParseEntry(entries[i], scheme).Success?
    ensures r.Success? ==> |r.value| == |JavaSplit(address, ',')|
    ensures var entries := JavaSplit(address, ',');
            r.Success? ==> forall i :: 0 <= i < |entries| ==> r.value[i] == ParseEntry(entries[i], scheme).value
    ensures r.Success? ==> forall i :: 0 <= i < |r.value| ==> r.value[i].scheme == scheme
    ensures var entries := JavaSplit(address, ',');
            r.Failure? ==> exists i :: && 0 <= i < |entries|
                                       && ParseEntry(entries[i], scheme) == Failure(r.error)
                                       && (forall j :: 0 <= j < i ==> ParseEntry(entries[j], scheme).Success?)
  {
    ParseEntries(JavaSplit(address, ','), scheme)
  }

  /** A trailing comma after a non-empty address adds no entry. (On its own, "," splits
      to nothing, while "" splits to one empty entry.) */
  lemma TrailingCommaAddsNoEntry(address: string)
    requires address != ""
    ensures JavaSplit(address + [','], ',') == JavaSplit(address, ',')
  {
    assert (address + [','])[|address|] == ',';
    if ',' in address {
      TrailingCommaAfterPieces(address);
    } else {
      TrailingCommaAfterOnePiece(address);
    }
  }

  lemma TrailingCommaAfterPieces(address: string)
    requires ',' in address
    ensures DropTrailingEmpty(Pieces(address + [','], ',')) == DropTrailingEmpty(Pieces(address, ','))
  {
    JoinPieces(address, ',');
    var parts := Pieces(address, ',');
    var parts' := parts + [""];
    assert forall k :: 0 <= k < |parts'| ==> ',' !in parts'[k];
    assert Join(parts', ',') == address + [','] by { JoinAppend(parts, "", ','); }
    PiecesJoin(parts', ',');
    assert parts'[..|parts'| - 1] == parts;
  }

  lemma TrailingCommaAfterOnePiece(address: string)
    requires ',' !in address && address != ""
    ensures DropTrailingEmpty(Pieces(address + [','], ',')) == [address]
  {
    PiecesCons(address, "", ',');
    assert address + [','] + "" == address + [','];
    assert Pieces("", ',') == [""];
    assert DropTrailingEmpty([address, ""]) == DropTrailingEmpty([address]);
  }

  /** Hence the same hosts, or the same failure, with or without a trailing comma. */
  lemma TrailingCommaAddsNoHost(address: string, scheme: string)
    requires address != ""
    ensures ParseAddress(address + [','], scheme) == ParseAddress(address, scheme)
  {
    TrailingCommaAddsNoEntry(address);
  }

  lemma {:induction false} JoinAppend(parts: seq<string>, last: string, c: char)
    requires |parts| >= 1
    ensures Join(parts + [last], c) == Join(parts, c) + [c] + last
    decreases |parts|
  {
    if |parts| > 1 {
      JoinAppend(parts[1..], last, c);
      assert (parts + [last])[1..] == parts[1..] + [last];
    }
  }

  /** The text of one host as it appears in the address: "host:port". */
  function RenderEntry(host: HttpHost): string
    requires host.port >= 0
  {
    host.hostname + [':'] + ShowNat(host.port)
  }

  function RenderEntries(hosts: seq<HttpHost>): (r: seq<string>)
    requires forall i :: 0 <= i < |hosts| ==> hosts[i].port >= 0
    ensures |r| == |hosts|
    ensures forall i :: 0 <= i < |hosts| ==> r[i] == RenderEntry(hosts[i])
  {
    if hosts == [] then [] else [RenderEntry(hosts[0])] + RenderEntries(hosts[1..])
  }

  /** A host list rendered as a comma-separated address. */
  function RenderAddress(hosts: seq<HttpHost>): string
    requires forall i :: 0 <= i < |hosts| ==> hosts[i].port >= 0
  {
    Join(RenderEntries(hosts), ',')
  }

  /** Hosts that can be written in the address syntax: at least one, names free of ','
      and ':', non-negative ports, all with the configured scheme. */
  predicate Writable(hosts: seq<HttpHost>, scheme: string)
  {
    && |hosts| >= 1
    && forall i :: 0 <= i < |hosts| ==>
         && ',' !in hosts[i].hostname && ':' !in hosts[i].hostname
         && hosts[i].port >= 0 && hosts[i].scheme == scheme
  }

  lemma ParseRenderedEntry(host: HttpHost, scheme: string)
    requires ',' !in host.hostname && ':' !in host.hostname
    requires host.port >= 0 && host.scheme == scheme
    ensures ',' !in RenderEntry(host)
    ensures ParseEntry(RenderEntry(host), scheme) == Success(host)
  {
    var digits := ShowNat(host.port);
    assert forall k :: 0 <= k < |digits| ==> digits[k] != ':' && digits[k] != ',';
    var parts := [host.hostname, digits];
    assert Join(parts, ':') == RenderEntry(host);
    SplitJoined(parts, ':');
    ParseShowNat(host.port);
  }

  /** Round trip: the address written from a list of writable hosts parses back to that
      list, in order. */
  lemma ParseRenderedAddress(hosts: seq<HttpHost>, scheme: string)
    requires Writable(hosts, scheme)
    ensures ParseAddress(RenderAddress(hosts), scheme) == Success(hosts)
  {
    var entries := RenderEntries(hosts);
    forall i | 0 <= i < |hosts|
      ensures ',' !in entries[i] && ParseEntry(entries[i], scheme) == Success(hosts[i])
    {
      ParseRenderedEntry(hosts[i], scheme);
    }
    assert entries[|entries| - 1] != "" by {
      assert ':' in entries[|entries| - 1];
    }
    SplitJoined(entries, ',');
    var r := ParseEntries(entries, scheme);
    assert r.Success?;
    assert r.value == hosts;
  }

  // ---------------------------------------------------------------------------------------
  // Client settings

  /** The configuration properties the client set-up reads. */
  datatype OpenSearchConfigProperties = OpenSearchConfigProperties(
    schema: string, address: string,
    connectTimeout: int32, socketTimeout: int32, connectionRequestTimeout: int32,
    maxConnectNum: int32, maxConnectPerRoute: int32)

  datatype Credentials = Credentials(userName: string, password: string)

  datatype RequestConfig = RequestConfig(connectTimeout: int32, socketTimeout: int32, connectionRequestTimeout: int32)

  /** The HTTP-client configuration callback: either connection-pool limits, or hostname
      verification switched off with default credentials attached. */
  datatype HttpClientCallback =
    | PoolLimits(maxConnTotal: int32, maxConnPerRoute: int32)
    | NoHostnameCheckWithCredentials(credentials: Credentials)

  /** The REST client builder: hosts and the two callback slots. Setting a slot again
      replaces what it held. */
  datatype ClientBuilder = ClientBuilder(
    hosts: seq<HttpHost>,
    requestConfig: Option<RequestConfig>,
    httpClientConfig: Option<HttpClientCallback>)

  function SetHttpClientConfigCallback(builder: ClientBuilder, callback: HttpClientCallback): (r: ClientBuilder)
    ensures r.httpClientConfig == Some(callback)
    ensures r.hosts == builder.hosts && r.requestConfig == builder.requestConfig
  {
    builder.(httpClientConfig := Some(callback))
  }

  /** `restClient`: the hosts parsed from the address, the three timeouts copied into the
      request configuration, and the HTTP-client callback: pool limits, overwritten by the
      no-hostname-check-with-credentials callback when the scheme is exactly "https". */
  function RestClient(props: OpenSearchConfigProperties, credentials: Credentials): (r: Result<ClientBuilder>)
    ensures r.Success? <==> ParseAddress(props.address, props.schema).Success?
    ensures r.Failure? ==> r.error == ParseAddress(props.address, props.schema).error
    ensures r.Success? ==> r.value.hosts == ParseAddress(props.address, props.schema).value
    ensures r.Success? ==>
      r.value.requestConfig == Some(RequestConfig(props.connectTimeout, props.socketTimeout, props.connectionRequestTimeout))
    ensures r.Success? ==>
      (props.schema == "https" <==> r.value.httpClientConfig == Some(NoHostnameCheckWithCredentials(credentials)))
    ensures r.Success? && props.schema != "https" ==>
      r.value.httpClientConfig == Some(PoolLimits(props.maxConnectNum, props.maxConnectPerRoute))
  {
    match ParseAddress(props.address, props.schema)
    case Failure(e) => Failure(e)
    case Success(hosts) =>
      var requestConfig := RequestConfig(props.connectTimeout, props.socketTimeout, props.connectionRequestTimeout);
      var builder := ClientBuilder(hosts, Some(requestConfig), None);
      var pooled := SetHttpClientConfigCallback(builder, PoolLimits(props.maxConnectNum, props.maxConnectPerRoute));
      if props.schema == "https" then
        Success(SetHttpClientConfigCallback(pooled, NoHostnameCheckWithCredentials(credentials)))
      else
        Success(pooled)
  }

  /** The https check is case-sensitive: "HTTPS" hosts keep the pool limits and get no
      credentials, although the hosts carry that scheme. */
  lemma UpperCaseHttpsIsNotHttps(props: OpenSearchConfigProperties, credentials: Credentials)
    requires props.schema == "HTTPS"
    requires RestClient(props, credentials).Success?
    ensures RestClient(props, credentials).value.httpClientConfig
            == Some(PoolLimits(props.maxConnectNum, props.maxConnectPerRoute))
  {
  }

  /** The usual two-node address. */
  lemma TwoNodeAddress()
    ensures ParseAddress("a:1,b:2", "http") == Success([HttpHost("a", 1, "http"), HttpHost("b", 2, "http")])
  {
    var hosts := [HttpHost("a", 1, "http"), HttpHost("b", 2, "http")];
    assert RenderEntry(hosts[0]) == "a:1";
    assert RenderEntry(hosts[1]) == "b:2";
    assert RenderEntries(hosts) == ["a:1", "b:2"];
    assert RenderAddress(hosts) == "a:1,b:2";
    ParseRenderedAddress(hosts, "http");
  }

  /** An entry that ends right after its first ':' has no port piece either: "h:" splits
      to ["h"], and ":" splits to nothing at all. */
  lemma EmptyPortFails(hostname: string, scheme: string)
    requires ':' !in hostname
    ensures ParseEntry(hostname + [':'], scheme)
            == Failure(ArrayIndexOutOfBoundsException(if hostname == "" then 0 else 1))
  {
    PiecesCons(hostname, "", ':');
    assert hostname + [':'] + "" == hostname + [':'];
    assert (hostname + [':'])[|hostname|] == ':';
    assert Pieces("", ':') == [""];
    assert DropTrailingEmpty([hostname, ""]) == DropTrailingEmpty([hostname]);
  }

  /** An entry without ':' is a single piece, so reading its port piece is out of bounds
      at index 1; an address made of one such entry fails the same way. */
  lemma EntryWithoutPortFails(entry: string, scheme: string)
    requires ':' !in entry
    ensures ParseEntry(entry, scheme) == Failure(ArrayIndexOutOfBoundsException(1))
    ensures ',' !in entry ==> ParseAddress(entry, scheme) == Failure(ArrayIndexOutOfBoundsException(1))
  {
    if ',' !in entry {
      assert JavaSplit(entry, ',') == [entry];
    }
  }

  /** A port piece that is not a sign followed by digits fails the entry, and with it the
      whole address, with the port text in the exception. */
  lemma NonNumericPortFails(hostname: string, port: string, scheme: string)
    requires ':' !in hostname && ':' !in port && port != ""
    requires !WellFormedInt(port)
    ensures ParseEntry(hostname + [':'] + port, scheme) == Failure(NumberFormatException(port))
    ensures ',' !in hostname && ',' !in port ==>
              ParseAddress(hostname + [':'] + port, scheme) == Failure(NumberFormatException(port))
  {
    var element := hostname + [':'] + port;
    assert Join([hostname, port], ':') == element;
    SplitJoined([hostname, port], ':');
    if ',' !in hostname && ',' !in port {
      assert ',' !in element;
      SplitJoined([element], ',');
    }
  }

  /** Anything after the port's piece is ignored, further ':' included. */
  lemma ExtraPiecesIgnored(host: HttpHost, scheme: string, rest: string)
    requires ':' !in host.hostname && host.port >= 0 && host.scheme == scheme
    ensures ParseEntry(RenderEntry(host) + [':'] + rest, scheme) == Success(host)
  {
    var digits := ShowNat(host.port);
    var element := RenderEntry(host) + [':'] + rest;
    var parts := JavaSplit(element, ':');
    assert |parts| >= 2 && parts[0] == host.hostname && parts[1] == digits by {
      SplitKeepsFirstTwo(host.hostname, digits, rest);
      assert element == host.hostname + [':'] + (digits + [':'] + rest);
    }
    ParseShowNat(host.port);
  }

  /** Splitting "a:d:rest" on ':' keeps "a" and "d" as its first two pieces when neither
      holds ':' and "d" is not empty. */
  lemma SplitKeepsFirstTwo(a: string, d: string, rest: string)
    requires ':' !in a && ':' !in d && d != ""
    ensures var parts := JavaSplit(a + [':'] + (d + [':'] + rest), ':');
            |parts| >= 2 && parts[0] == a && parts[1] == d
  {
    var element := a + [':'] + (d + [':'] + rest);
    PiecesCons(a, d + [':'] + rest, ':');
    PiecesCons(d, rest, ':');
    var pieces := Pieces(element, ':');
    assert pieces == [a, d] + Pieces(rest, ':');
    assert element[|a|] == ':';
    DropKeepsNonEmpty(pieces, 1);
  }

}
