/** What a generated Traefik config means: a strict reader of its text, for the subset of YAML that the
    generator writes (sections 5.4, 5.7, 6.6, 7.2, 7.3.1 and 10.3.2 of YAML 1.2.2: line breaks, escapes,
    comments, empty nodes, double-quoted scalars and null), with the Host matcher of the rules, and exactly which names read back. */
module TraefikReader {
  import opened Options
  import opened Traefik
  import Subnet

  // ---------------------------------------------------------------- lines

  predicate IsBreak(c: char) {
    c == '\n' || c == '\r'
  }

  predicate SingleLine(s: string) {
    forall k :: 0 <= k < |s| ==> !IsBreak(s[k])
  }

  /** Cuts the rest at its breaks; `line` is what the current line holds so far. */
  function LinesFrom(line: string, rest: string): (r: seq<string>)
    ensures |r| >= 1
    decreases |rest|
  {
    if rest == [] then [line]
    else if IsBreak(rest[0]) then [line] + LinesFrom("", rest[1..])
    else LinesFrom(line + [rest[0]], rest[1..])
  }

  function Lines(s: string): (r: seq<string>)
    ensures |r| >= 1
  {
    LinesFrom("", s)
  }

  /** White space, or a comment. */
  predicate Ignorable(s: string) {
    s == [] || s[0] == '#' || ((s[0] == ' ' || s[0] == '\t') && Ignorable(s[1..]))
  }

  // ---------------------------------------------------------------- quoted values

  /** The escapes of one character; numeric ones are refused. */
  function Escaped(c: char): Option<char> {
    match c
    case '0' => Some('\0')
    case 'a' => Some('\U{07}')
    case 'b' => Some('\U{08}')
    case 't' => Some('\t')
    case 'n' => Some('\n')
    case 'v' => Some('\U{0B}')
    case 'f' => Some('\U{0C}')
    case 'r' => Some('\r')
    case 'e' => Some('\U{1B}')
    case ' ' => Some(' ')
    case '"' => Some('"')
    case '/' => Some('/')
    case '\\' => Some('\\')
    case 'N' => Some('\U{85}')
    case '_' => Some('\U{A0}')
    case 'L' => Some('\U{2028}')
    case 'P' => Some('\U{2029}')
    case _ => None
  }

  function PutBefore(c: char, rest: Option<string>): Option<string> {
    if rest.Some? then Some([c] + rest.value) else None
  }

  /** The value of a scalar whose opening quote has been read: it ends at the first unescaped quote,
      after which only white space and a comment may follow on the line. */
  function Unquote(s: string): Option<string>
    decreases |s|
  {
    if s == [] then None
    else if s[0] == '"' then
      if s[1..] == [] || (s[1] != '#' && Ignorable(s[1..])) then Some("") else None
    else if s[0] == '\\' then
      if |s| == 1 || Escaped(s[1]).None? then None else PutBefore(Escaped(s[1]).value, Unquote(s[2..]))
    else PutBefore(s[0], Unquote(s[1..]))
  }

  /** The middle of a text that starts and ends as given. */
  function Within(line: string, before: string, after: string): Option<string> {
    if before <= line && |before| + |after| <= |line| && line[|line| - |after|..] == after
    then Some(line[|before|..|line| - |after|]) else None
  }

  /** The host of a rule: what stands between the backticks. */
  function HostOf(rule: string): Option<string> {
    var h := Within(rule, "Host(`", "`)");
    if h.Some? && '`' !in h.value then h else None
  }

  // ---------------------------------------------------------------- tokens

  datatype Section = Start | Http | Routers | Services | Middlewares

  datatype Token = Ignored | Heading(section: Section) | Nothing | KeyOf(key: string) | Rule(hostname: string)
                 | ServiceRef(service: string) | MiddlewareRef(middleware: string) | Url(address: string)
                 | Fixed | Malformed

  /** Plain scalars that mean null and not a text. */
  predicate ReadsAsNull(s: string) {
    s == "" || s == "null" || s == "Null" || s == "NULL"
  }

  predicate IsKeyText(s: string) {
    !ReadsAsNull(s) && forall k :: 0 <= k < |s| ==> IsAlnum(s[k]) || s[k] == '-'
  }

  const RULE_START := "      rule: \""
  const URL_START := "          - url: \""

  function RuleToken(quoted: string): Token {
    var v := Unquote(quoted);
    if v.Some? && HostOf(v.value).Some? then Rule(HostOf(v.value).value) else Malformed
  }

  function UrlToken(quoted: string): Token {
    var v := Unquote(quoted);
    if v.Some? && "http://" <= v.value then Url(v.value[7..]) else Malformed
  }

  function EntryToken(text: string): Token {
    var key := Within(text, "", ":");
    if key.Some? && IsKeyText(key.value) then KeyOf(key.value)
    else if "{}" <= text && (text[2..] == [] || (text[2] != '#' && Ignorable(text[2..]))) then Nothing
    else Malformed
  }

  function AttributeToken(text: string): Token {
    var middleware := Within(text, "middlewares: [", "]");
    if text == "loadBalancer:" || text == "stripPrefix:" then Fixed
    else if "rule: \"" <= text then RuleToken(text[7..])
    else if "service: " <= text && IsKeyText(text[9..]) then ServiceRef(text[9..])
    else if middleware.Some? && IsKeyText(middleware.value) then MiddlewareRef(middleware.value)
    else Malformed
  }

  function Classify(indent: nat, text: string): Token {
    if Ignorable(text) then Ignored
    else if indent == 0 then if text == "http:" then Heading(Http) else Malformed
    else if indent == 2 then
      if text == "routers:" then Heading(Routers)
      else if text == "services:" then Heading(Services)
      else if text == "middlewares:" then Heading(Middlewares)
      else Malformed
    else if indent == 4 then EntryToken(text)
    else if indent == 6 then AttributeToken(text)
    else if indent == 8 then if text == "servers:" || text == "prefixes: [\"/\"]" then Fixed else Malformed
    else if indent == 10 then if "- url: \"" <= text then UrlToken(text[8..]) else Malformed
    else Malformed
  }

  /** Counts the indentation first. */
  function TokenAt(indent: nat, line: string): Token
    decreases |line|
  {
    if line != [] && line[0] == ' ' then TokenAt(indent + 1, line[1..]) else Classify(indent, line)
  }

  function Tokenize(line: string): Token {
    TokenAt(0, line)
  }

  // ---------------------------------------------------------------- the reader

  datatype Router = Router(key: string, hostname: Option<string>, service: Option<string>, middleware: Option<string>)

  datatype Backend = Backend(key: string, address: Option<string>)

  datatype Config = Config(routers: seq<Router>, services: seq<Backend>, middlewares: seq<string>)

  /** The section being read and what has been read so far, unless a line did not fit. */
  datatype Doc = Failed | Doc(section: Section, config: Config)

  const Blank := Doc(Start, Config([], [], []))

  function After(s: Section): Section {
    match s
    case Start => Http
    case Http => Routers
    case Routers => Services
    case Services => Middlewares
    case Middlewares => Start
  }

  function WithRouters(d: Doc, routers: seq<Router>): Doc
    requires d.Doc?
  {
    d.(config := d.config.(routers := routers))
  }

  function WithServices(d: Doc, services: seq<Backend>): Doc
    requires d.Doc?
  {
    d.(config := d.config.(services := services))
  }

  function WithMiddlewares(d: Doc, middlewares: seq<string>): Doc
    requires d.Doc?
  {
    d.(config := d.config.(middlewares := middlewares))
  }

  function Push(d: Doc, key: string): Doc
    requires d.Doc?
  {
    match d.section
    case Routers => WithRouters(d, d.config.routers + [Router(key, None, None, None)])
    case Services => WithServices(d, d.config.services + [Backend(key, None)])
    case Middlewares => WithMiddlewares(d, d.config.middlewares + [key])
    case _ => Failed
  }

  /** An attribute of the router read last, which may be given once. */
  function SetAttribute(d: Doc, t: Token): Doc
    requires d.Doc? && (t.Rule? || t.ServiceRef? || t.MiddlewareRef?)
  {
    var rs := d.config.routers;
    if !d.section.Routers? || rs == [] then Failed
    else
      var n := |rs| - 1;
      var r := rs[n];
      match t
      case Rule(h) => if r.hostname.Some? then Failed else WithRouters(d, rs[..n] + [r.(hostname := Some(h))])
      case ServiceRef(s) => if r.service.Some? then Failed else WithRouters(d, rs[..n] + [r.(service := Some(s))])
      case MiddlewareRef(m) => if r.middleware.Some? then Failed else WithRouters(d, rs[..n] + [r.(middleware := Some(m))])
  }

  function SetAddress(d: Doc, address: string): Doc
    requires d.Doc?
  {
    var ss := d.config.services;
    if !d.section.Services? || ss == [] || ss[|ss| - 1].address.Some? then Failed
    else WithServices(d, ss[..|ss| - 1] + [ss[|ss| - 1].(address := Some(address))])
  }

  predicate SectionIsEmpty(d: Doc)
    requires d.Doc?
  {
    || (d.section.Routers? && d.config.routers == [])
    || (d.section.Services? && d.config.services == [])
    || (d.section.Middlewares? && d.config.middlewares == [])
  }

  function Consume(d: Doc, t: Token): Doc {
    if d.Failed? then Failed else
    match t
    case Ignored => d
    case Heading(s) => if !s.Start? && s == After(d.section) then d.(section := s) else Failed
    case Nothing => if SectionIsEmpty(d) then d else Failed
    case KeyOf(k) => Push(d, k)
    case Fixed => if d.section.Services? || d.section.Middlewares? then d else Failed
    case Url(a) => SetAddress(d, a)
    case Malformed => Failed
    case _ => SetAttribute(d, t)
  }

  function ReadFrom(d: Doc, lines: seq<string>): Doc
    decreases |lines|
  {
    if lines == [] then d else ReadFrom(Consume(d, Tokenize(lines[0])), lines[1..])
  }

  predicate Unrepeated(keys: seq<string>) {
    forall i, j :: 0 <= i < j < |keys| ==> keys[i] != keys[j]
  }

  function RouterKeys(c: Config): (r: seq<string>)
    ensures |r| == |c.routers|
  {
    seq(|c.routers|, k requires 0 <= k < |c.routers| => c.routers[k].key)
  }

  function ServiceKeys(c: Config): (r: seq<string>)
    ensures |r| == |c.services|
  {
    seq(|c.services|, k requires 0 <= k < |c.services| => c.services[k].key)
  }

  /** A mapping may not repeat a key. */
  predicate Unambiguous(c: Config) {
    Unrepeated(RouterKeys(c)) && Unrepeated(ServiceKeys(c)) && Unrepeated(c.middlewares)
  }

  function ReadText(text: string): Option<Config> {
    var d := ReadFrom(Blank, Lines(text));
    if d.Doc? && d.section.Middlewares? && Unambiguous(d.config) then Some(d.config) else None
  }

  // ---------------------------------------------------------------- what is meant

  function RouterOf(e: Entry): Router {
    Router(Key(e), Some(e.route.hostname), Some(Key(e)), if e.route.stripPrefix then Some(Key(e) + "-strip") else None)
  }

  function RoutersOf(es: seq<Entry>): (r: seq<Router>)
    ensures |r| == |es|
  {
    seq(|es|, k requires 0 <= k < |es| => RouterOf(es[k]))
  }

  function BackendsOf(es: seq<Entry>): (r: seq<Backend>)
    ensures |r| == |es|
  {
    seq(|es|, k requires 0 <= k < |es| => Backend(Key(es[k]), Some(Address(es[k]))))
  }

  function StripNames(es: seq<Entry>): seq<string> {
    if es == [] then []
    else
      var n := |es| - 1;
      StripNames(es[..n]) + if es[n].route.stripPrefix then [Key(es[n]) + "-strip"] else []
  }

  function ConfigOf(es: seq<Entry>): Config {
    Config(RoutersOf(es), BackendsOf(es), StripNames(es))
  }

  // ---------------------------------------------------------------- which names can be read

  predicate Unescaped(s: string) {
    forall k :: 0 <= k < |s| ==> s[k] != '"' && s[k] != '\\'
  }

  /** No line break, quote or backslash. */
  predicate NameIsPlain(name: string) {
    SingleLine(name) && Unescaped(name)
  }

  predicate HostIsPlain(hostname: string) {
    SingleLine(hostname) && Unescaped(hostname) && '`' !in hostname
  }

  /** The network's comment stays a comment on every line it takes up. */
  predicate NetworkIsComment(network: Network) {
    forall k :: 0 <= k < |Lines(HeaderLines(network)[1])| ==> Ignorable(Lines(HeaderLines(network)[1])[k])
  }

  predicate HasAlnum(s: string) {
    exists k :: 0 <= k < |s| && IsAlnum(s[k])
  }

  /** There is a letter or digit to make a key of, and the key does not mean null. */
  predicate IsNamed(e: Entry) {
    (HasAlnum(e.stack.name) || HasAlnum(e.route.hostname)) && Key(e) != "null" && Key(e) != "Null" && Key(e) != "NULL"
  }

  predicate RouterIsPlain(e: Entry) {
    IsNamed(e) && HostIsPlain(e.route.hostname)
  }

  predicate RoutersArePlain(es: seq<Entry>) {
    forall k :: 0 <= k < |es| ==> RouterIsPlain(es[k])
  }

  predicate StacksArePlain(es: seq<Entry>) {
    forall k :: 0 <= k < |es| ==> NameIsPlain(es[k].stack.name)
  }

  predicate KeysAreDistinct(es: seq<Entry>) {
    forall i, j :: 0 <= i < j < |es| ==> Key(es[i]) != Key(es[j])
  }

  predicate Readable(network: Network, es: seq<Entry>) {
    NetworkIsComment(network) && RoutersArePlain(es) && StacksArePlain(es) && KeysAreDistinct(es)
  }

  // ---------------------------------------------------------------- quoting

  lemma {:induction false} UnquotePlain(v: string)
    requires Unescaped(v)
    ensures Unquote(v + "\"") == Some(v)
    decreases |v|
  {
    if v != [] {
      assert (v + "\"")[1..] == v[1..] + "\"";
      UnquotePlain(v[1..]);
      assert [v[0]] + v[1..] == v;
    }
  }

  /** A value is shorter than what it was read from, by one quote only if nothing was escaped. */
  lemma {:induction false} UnquoteShortens(s: string)
    requires Unquote(s).Some?
    ensures |Unquote(s).value| < |s|
    ensures |Unquote(s).value| + 1 == |s| ==> s == Unquote(s).value + "\"" && Unescaped(Unquote(s).value)
    decreases |s|
  {
    if s[0] == '"' {
    } else if s[0] == '\\' {
      UnquoteShortens(s[2..]);
    } else {
      UnquoteShortens(s[1..]);
      assert s == [s[0]] + s[1..];
    }
  }

  lemma WithinReads(before: string, middle: string, after: string)
    ensures Within(before + middle + after, before, after) == Some(middle)
  {
    var line := before + middle + after;
    assert line[|before|..|line| - |after|] == middle && line[|line| - |after|..] == after;
  }

  /** The position of the first line break. */
  function LineEnd(s: string): (k: nat)
    ensures k <= |s| && (k < |s| ==> IsBreak(s[k])) && SingleLine(s[..k])
  {
    if s == [] || IsBreak(s[0]) then 0 else
      var k := LineEnd(s[1..]);
      assert s[..k + 1] == [s[0]] + s[1..][..k];
      k + 1
  }

  lemma ShiftByOne(line: string, s: string, k: nat)
    requires k < |s|
    ensures line + [s[0]] + s[1..][..k] == line + s[..k + 1]
    ensures k + 1 < |s| ==> s[1..][k + 1..] == s[k + 2..]
  {
  }

  lemma {:induction false} LinesUnfold(line: string, s: string)
    ensures var k := LineEnd(s);
            LinesFrom(line, s) == [line + s[..k]] + if k < |s| then Lines(s[k + 1..]) else []
    decreases |s|
  {
    if s != [] && !IsBreak(s[0]) {
      LinesUnfold(line + [s[0]], s[1..]);
      ShiftByOne(line, s, LineEnd(s[1..]));
    } else {
      assert line + s[..0] == line;
    }
  }

  lemma FirstLine(s: string)
    ensures var k := LineEnd(s); Lines(s) == [s[..k]] + if k < |s| then Lines(s[k + 1..]) else []
  {
    LinesUnfold("", s);
    assert "" + s[..LineEnd(s)] == s[..LineEnd(s)];
  }

  lemma FirstBreak(s: string, n: nat)
    requires n <= |s| && SingleLine(s[..n]) && (n < |s| ==> IsBreak(s[n]))
    ensures LineEnd(s) == n
  {
    var k := LineEnd(s);
    assert forall i :: 0 <= i < n ==> s[..n][i] == s[i];
    assert forall i :: 0 <= i < k ==> s[..k][i] == s[i];
  }

  lemma SingleHasOneLine(s: string)
    requires SingleLine(s)
    ensures LineEnd(s) == |s| && Lines(s) == [s]
  {
    assert s[..|s|] == s;
    FirstBreak(s, |s|);
    FirstLine(s);
  }

  lemma LineEndAfter(start: string, rest: string)
    requires SingleLine(start)
    ensures LineEnd(start + rest) == |start| + LineEnd(rest)
  {
    var n := |start| + LineEnd(rest);
    assert (start + rest)[..n] == start + rest[..LineEnd(rest)];
    FirstBreak(start + rest, n);
  }

  /** The first line of a line that quotes a value reads as that value exactly when the value is plain. */
  lemma QuotedReadsIff(start: string, v: string) returns (w: string)
    requires SingleLine(start)
    ensures Lines(start + v + "\"")[0] == start + w
    ensures Unquote(w) == Some(v) <==> SingleLine(v) && Unescaped(v)
    ensures SingleLine(v) ==> Lines(start + v + "\"") == [start + w]
  {
    var s := v + "\"";
    var k := LineEnd(s);
    w := s[..k];
    assert start + v + "\"" == start + s;
    LineEndAfter(start, s);
    FirstLine(start + s);
    assert (start + s)[..|start| + k] == start + w;
    if SingleLine(v) {
      FirstBreak(s, |s|);
      assert w == s;
    }
    assert s[..|s|] == s;
    assert forall i :: 0 <= i < |v| ==> s[i] == v[i];
    if Unescaped(v) { UnquotePlain(v); }
    if Unquote(w) == Some(v) { UnquoteShortens(w); }
  }

  lemma HostOfIff(rule: string, h: string)
    ensures HostOf(rule) == Some(h) <==> rule == "Host(`" + h + "`)" && '`' !in h
  {
    WithinReads("Host(`", h, "`)");
    if Within(rule, "Host(`", "`)") == Some(h) {
      assert rule == rule[..6] + rule[6..|rule| - 2] + rule[|rule| - 2..];
    }
  }

  /** The rule line of a hostname reads as that hostname exactly when the hostname is plain. */
  lemma RuleLineReadsIff(h: string) returns (w: string)
    ensures Lines(RuleLine(h))[0] == RULE_START + w
    ensures RuleToken(w) == Rule(h) <==> HostIsPlain(h)
    ensures HostIsPlain(h) ==> Lines(RuleLine(h)) == [RULE_START + w]
  {
    var v := "Host(`" + h + "`)";
    assert RuleLine(h) == RULE_START + v + "\"";
    w := QuotedReadsIff(RULE_START, v);
    HostOfIff(v, h);
    PlainInside("Host(`", h, "`)");
    if RuleToken(w) == Rule(h) { HostOfIff(Unquote(w).value, h); }
  }

  lemma PlainInside(before: string, middle: string, after: string)
    requires NameIsPlain(before) && NameIsPlain(after)
    ensures NameIsPlain(before + middle + after) <==> NameIsPlain(middle)
  {
    var s := before + middle + after;
    assert forall k :: 0 <= k < |middle| ==> middle[k] == s[|before| + k];
  }

  lemma PortIsPlain(port: int)
    ensures NameIsPlain(PortText(port))
  {
    Subnet.DecimalReads(if port < 0 then -port else port);
  }

  lemma AddressIsPlainIff(e: Entry)
    ensures NameIsPlain("http://" + Address(e)) <==> NameIsPlain(e.stack.name)
  {
    var port := ":" + PortText(e.route.port);
    PortIsPlain(e.route.port);
    assert NameIsPlain(port);
    PlainInside("http://", e.stack.name, port);
    assert "http://" + e.stack.name + port == "http://" + Address(e);
  }

  lemma UrlTokenIff(w: string, a: string)
    ensures UrlToken(w) == Url(a) <==> Unquote(w) == Some("http://" + a)
  {
    assert ("http://" + a)[7..] == a;
    if UrlToken(w) == Url(a) {
      assert Unquote(w).value == "http://" + Unquote(w).value[7..];
    }
  }

  lemma UrlLineQuotes(a: string)
    ensures UrlLine(a) == URL_START + ("http://" + a) + "\"" && SingleLine(URL_START)
  {
  }

  /** The line of a service address reads as that address exactly when the stack's name is plain. */
  lemma UrlLineReadsIff(e: Entry) returns (w: string)
    ensures Lines(UrlLine(Address(e)))[0] == URL_START + w
    ensures UrlToken(w) == Url(Address(e)) <==> NameIsPlain(e.stack.name)
    ensures NameIsPlain(e.stack.name) ==> Lines(UrlLine(Address(e))) == [URL_START + w]
  {
    var v := "http://" + Address(e);
    UrlLineQuotes(Address(e));
    w := QuotedReadsIff(URL_START, v);
    AddressIsPlainIff(e);
    UrlTokenIff(w, Address(e));
  }

  // ---------------------------------------------------------------- what each line written reads as

  lemma {:induction false} IndentCounts(indent: nat, line: string, k: nat)
    requires k <= |line| && forall j :: 0 <= j < k ==> line[j] == ' '
    ensures TokenAt(indent, line) == TokenAt(indent + k, line[k..])
    decreases k
  {
    if k > 0 {
      IndentCounts(indent + 1, line[1..], k - 1);
      assert line[1..][k - 1..] == line[k..];
    } else {
      assert line[0..] == line;
    }
  }

  lemma IndentedLine(line: string, k: nat)
    requires k < |line| && (forall j :: 0 <= j < k ==> line[j] == ' ') && line[k] !in {' ', '\t', '#'}
    ensures Tokenize(line) == Classify(k, line[k..])
    ensures !Ignorable(line[k..])
  {
    IndentCounts(0, line, k);
    assert line[k..][0] == line[k];
  }

  lemma AtSix(text: string)
    requires text != [] && text[0] !in {' ', '\t', '#'}
    ensures Tokenize("      " + text) == Classify(6, text) && !Ignorable(text)
  {
    var line := "      " + text;
    assert line[6..] == text;
    IndentedLine(line, 6);
  }

  lemma AtEight(text: string)
    requires text != [] && text[0] !in {' ', '\t', '#'}
    ensures Tokenize("        " + text) == Classify(8, text) && !Ignorable(text)
  {
    var line := "        " + text;
    assert line[8..] == text;
    IndentedLine(line, 8);
  }

  lemma {:induction false} IgnoredIffIgnorable(indent: nat, line: string)
    ensures TokenAt(indent, line) == Ignored <==> Ignorable(line)
    decreases |line|
  {
    if line != [] && line[0] == ' ' { IgnoredIffIgnorable(indent + 1, line[1..]); }
  }

  lemma TokenizeRule(w: string)
    ensures Tokenize(RULE_START + w) == RuleToken(w)
  {
    var line, text := RULE_START + w, "rule: \"" + w;
    assert line[6..] == text && text[7..] == w;
    IndentedLine(line, 6);
    assert text[0] == 'r' && "loadBalancer:"[0] == 'l' && "stripPrefix:"[0] == 's';
  }

  lemma TokenizeService(key: string)
    requires IsKeyText(key)
    ensures Tokenize(ServiceLine(key)) == ServiceRef(key)
  {
    var line, text := ServiceLine(key), "service: " + key;
    assert line[6..] == text && text[9..] == key;
    IndentedLine(line, 6);
    assert text[1] == 'e' && "loadBalancer:"[1] == 'o' && "stripPrefix:"[1] == 't' && "rule: \""[1] == 'u';
  }

  lemma TokenizeMiddleware(name: string)
    requires IsKeyText(name)
    ensures Tokenize(MiddlewareLine(name)) == MiddlewareRef(name)
  {
    var line, text := MiddlewareLine(name), "middlewares: [" + name + "]";
    assert line[6..] == text;
    WithinReads("middlewares: [", name, "]");
    IndentedLine(line, 6);
    assert text[0] == 'm' && "loadBalancer:"[0] == 'l' && "stripPrefix:"[0] == 's';
    assert "rule: \""[0] == 'r' && "service: "[0] == 's';
  }

  lemma TokenizeUrl(w: string)
    ensures Tokenize(URL_START + w) == UrlToken(w)
  {
    var line, text := URL_START + w, "- url: \"" + w;
    assert line[10..] == text && text[8..] == w;
    IndentedLine(line, 10);
  }

  lemma TokenizeKey(key: string)
    requires IsKeyText(key)
    ensures Tokenize(KeyLine(key)) == KeyOf(key)
  {
    var line, text := KeyLine(key), "" + key + ":";
    assert line[4..] == text;
    WithinReads("", key, ":");
    IndentedLine(line, 4);
  }

  lemma TokenizeHttp()
    ensures Tokenize("http:") == Heading(Http)
  {
    IndentedLine("http:", 0);
    assert "http:"[0..] == "http:";
  }

  lemma TokenizeRouters()
    ensures Tokenize("  routers:") == Heading(Routers)
  {
    IndentedLine("  routers:", 2);
    assert "  routers:"[2..] == "routers:";
  }

  lemma TokenizeServices()
    ensures Tokenize("  services:") == Heading(Services)
  {
    IndentedLine("  services:", 2);
    assert "  services:"[2..] == "services:" && "services:"[0] == 's' && "routers:"[0] == 'r';
  }

  lemma TokenizeMiddlewares()
    ensures Tokenize("  middlewares:") == Heading(Middlewares)
  {
    IndentedLine("  middlewares:", 2);
    assert "  middlewares:"[2..] == "middlewares:" && "middlewares:"[0] == 'm' && "routers:"[0] == 'r';
  }

  /** A line of its own that carries no name. */
  predicate Fixes(line: string) {
    SingleLine(line) && Tokenize(line) == Fixed
  }

  lemma FixedLinesAreSingle()
    ensures SingleLine(BALANCER) && SingleLine(SERVERS) && SingleLine(STRIP_PREFIX) && SingleLine(PREFIXES)
  {
  }

  lemma TokenizeBalancer()
    ensures Tokenize(BALANCER) == Fixed
  {
    assert BALANCER == "      " + "loadBalancer:";
    AtSix("loadBalancer:");
  }

  lemma TokenizeServers()
    ensures Tokenize(SERVERS) == Fixed
  {
    assert SERVERS == "        " + "servers:";
    AtEight("servers:");
  }

  lemma TokenizeStripPrefix()
    ensures Tokenize(STRIP_PREFIX) == Fixed
  {
    assert STRIP_PREFIX == "      " + "stripPrefix:";
    AtSix("stripPrefix:");
  }

  lemma TokenizePrefixes()
    ensures Tokenize(PREFIXES) == Fixed
  {
    assert PREFIXES == "        " + "prefixes: [\"/\"]";
    AtEight("prefixes: [\"/\"]");
  }

  lemma ServiceLinesFix()
    ensures Fixes(BALANCER) && Fixes(SERVERS)
  {
    FixedLinesAreSingle();
    TokenizeBalancer();
    TokenizeServers();
  }

  lemma MiddlewareLinesFix()
    ensures Fixes(STRIP_PREFIX) && Fixes(PREFIXES)
  {
    FixedLinesAreSingle();
    TokenizeStripPrefix();
    TokenizePrefixes();
  }

  predicate HoldsPlace(line: string) {
    SingleLine(line) && Tokenize(line) == Nothing
  }

  lemma EmptyMapping(line: string)
    requires |line| > 8 && (forall k :: 0 <= k < 4 ==> line[k] == ' ') && line[4] == '{' && line[5] == '}'
    requires line[6] == ' ' && line[7] == '#' && line[|line| - 1] != ':'
    ensures Tokenize(line) == Nothing
  {
    var text := line[4..];
    IndentedLine(line, 4);
    EmptyText(text, text[2..]);
  }

  lemma EmptyText(text: string, rest: string)
    requires |rest| > 2 && text == "{}" + rest && rest[0] == ' ' && rest[1] == '#' && rest[|rest| - 1] != ':'
    ensures EntryToken(text) == Nothing
  {
    assert rest[1..][0] == '#';
    assert Ignorable(rest);
    assert text[2..] == rest;
    assert text[|text| - 1..][0] == rest[|rest| - 1];
  }

  lemma PlaceholdersAreSingle()
    ensures SingleLine(NO_ROUTES) && SingleLine(NO_SERVICES) && SingleLine(NO_MIDDLEWARES)
  {
  }

  lemma TokenizeNoRoutes()
    ensures Tokenize(NO_ROUTES) == Nothing
  {
    EmptyMapping(NO_ROUTES);
  }

  lemma TokenizeNoServices()
    ensures Tokenize(NO_SERVICES) == Nothing
  {
    EmptyMapping(NO_SERVICES);
  }

  lemma TokenizeNoMiddlewares()
    ensures Tokenize(NO_MIDDLEWARES) == Nothing
  {
    EmptyMapping(NO_MIDDLEWARES);
  }

  lemma PlaceholdersHold()
    ensures HoldsPlace(NO_ROUTES) && HoldsPlace(NO_SERVICES) && HoldsPlace(NO_MIDDLEWARES)
  {
    PlaceholdersAreSingle();
    TokenizeNoRoutes();
    TokenizeNoServices();
    TokenizeNoMiddlewares();
  }

  // ---------------------------------------------------------------- reading in steps

  lemma {:induction false} ReadAppend(d: Doc, a: seq<string>, b: seq<string>)
    ensures ReadFrom(d, a + b) == ReadFrom(ReadFrom(d, a), b)
    decreases |a|
  {
    if a == [] {
      assert a + b == b;
    } else {
      assert (a + b)[0] == a[0] && (a + b)[1..] == a[1..] + b;
      ReadAppend(Consume(d, Tokenize(a[0])), a[1..], b);
    }
  }

  /** The lines of several written lines; a written line with a break in it is more than one. */
  function AllLines(written: seq<string>): seq<string> {
    if written == [] then [] else Lines(written[0]) + AllLines(written[1..])
  }

  function Read(d: Doc, written: seq<string>): Doc {
    ReadFrom(d, AllLines(written))
  }

  lemma {:induction false} AllLinesAppend(a: seq<string>, b: seq<string>)
    ensures AllLines(a + b) == AllLines(a) + AllLines(b)
  {
    if a == [] {
      assert a + b == b;
    } else {
      assert (a + b)[0] == a[0] && (a + b)[1..] == a[1..] + b;
      AllLinesAppend(a[1..], b);
    }
  }

  lemma ReadThen(d: Doc, a: seq<string>, b: seq<string>)
    ensures Read(d, a + b) == Read(Read(d, a), b)
  {
    AllLinesAppend(a, b);
    ReadAppend(d, AllLines(a), AllLines(b));
  }

  lemma ReadOne(d: Doc, line: string)
    ensures Read(d, [line]) == ReadFrom(d, Lines(line))
  {
    assert AllLines([line]) == Lines(line) + [] == Lines(line);
  }

  lemma ReadSingle(d: Doc, line: string)
    requires SingleLine(line)
    ensures Read(d, [line]) == Consume(d, Tokenize(line))
  {
    ReadOne(d, line);
    SingleHasOneLine(line);
    assert ReadFrom(d, [line]) == ReadFrom(Consume(d, Tokenize(line)), []);
  }

  lemma ReadFirst(d: Doc, line: string, rest: seq<string>)
    ensures Read(d, [line] + rest) == Read(Read(d, [line]), rest)
  {
    ReadThen(d, [line], rest);
  }

  /** What reading on can no longer change: a failure, leaving the start, and every hostname and address
      already read. */
  ghost predicate Extends(d: Doc, e: Doc) {
    e.Failed? || (
      && d.Doc?
      && (d.section.Start? || !e.section.Start?)
      && |d.config.routers| <= |e.config.routers| && |d.config.services| <= |e.config.services|
      && (forall k :: 0 <= k < |d.config.routers| && d.config.routers[k].hostname.Some? ==>
            e.config.routers[k].hostname == d.config.routers[k].hostname)
      && (forall k :: 0 <= k < |d.config.services| && d.config.services[k].address.Some? ==>
            e.config.services[k].address == d.config.services[k].address))
  }

  lemma ConsumeExtends(d: Doc, t: Token)
    ensures Extends(d, Consume(d, t))
  {
  }

  lemma {:induction false} ReadExtends(d: Doc, lines: seq<string>)
    ensures Extends(d, ReadFrom(d, lines))
    decreases |lines|
  {
    if lines != [] {
      var e := Consume(d, Tokenize(lines[0]));
      ConsumeExtends(d, Tokenize(lines[0]));
      ReadExtends(e, lines[1..]);
      assert Extends(e, ReadFrom(e, lines[1..]));
    }
  }

  /** Whatever lines follow the first of a written line, they cannot take back what it set. */
  lemma FirstLineDecides(d: Doc, line: string)
    ensures var d1 := Consume(d, Tokenize(Lines(line)[0]));
            Extends(d1, Read(d, [line])) && (|Lines(line)| == 1 ==> Read(d, [line]) == d1)
  {
    var lines := Lines(line);
    var d1 := Consume(d, Tokenize(lines[0]));
    ReadOne(d, line);
    ReadExtends(d1, lines[1..]);
  }

  // ---------------------------------------------------------------- the three sections

  lemma KeyIsEmptyIff(e: Entry)
    ensures Key(e) == "" <==> !HasAlnum(e.stack.name) && !HasAlnum(e.route.hostname)
  {
    var s, n := e.stack.name + "-" + e.route.hostname, |e.stack.name|;
    LabelIsClean(s);
    assert forall k :: 0 <= k < n ==> s[k] == e.stack.name[k];
    assert forall k :: 0 <= k < |e.route.hostname| ==> s[n + 1 + k] == e.route.hostname[k];
    assert forall k :: n < k < |s| ==> s[k] == e.route.hostname[k - n - 1];
  }

  /** An entry's key is a text exactly when the entry is named. */
  lemma KeyIsTextIff(e: Entry)
    ensures if IsNamed(e) then IsKeyText(Key(e)) else ReadsAsNull(Key(e))
  {
    KeyIsEmptyIff(e);
    LabelIsClean(e.stack.name + "-" + e.route.hostname);
  }

  lemma StripNameIsText(e: Entry)
    ensures IsKeyText(Key(e) + "-strip")
  {
    LabelIsClean(e.stack.name + "-" + e.route.hostname);
    assert |Key(e) + "-strip"| > 4;
  }

  lemma NoEntryToken(key: string)
    requires !IsKeyText(key) && (key == "" || key[0] != '{')
    ensures EntryToken(key + ":") == Malformed
  {
    var text := "" + key + ":";
    assert text == key + ":";
    WithinReads("", key, ":");
    assert text[0] != "{}"[0];
  }

  lemma NullIsPlainText(key: string)
    requires ReadsAsNull(key)
    ensures SingleLine(key) && (key == "" || key[0] == 'n' || key[0] == 'N')
  {
  }

  lemma TokenizeOtherKey(key: string)
    requires !IsKeyText(key) && (key == "" || key[0] == 'n' || key[0] == 'N')
    ensures Tokenize(KeyLine(key)) == Malformed
  {
    var line := KeyLine(key);
    assert line[4..] == key + ":";
    IndentedLine(line, 4);
    NoEntryToken(key);
  }

  lemma KeyLineIsSingle(key: string)
    requires SingleLine(key)
    ensures SingleLine(KeyLine(key))
  {
  }

  lemma NullKeyFails(d: Doc, key: string)
    requires ReadsAsNull(key)
    ensures Read(d, [KeyLine(key)]).Failed?
  {
    NullIsPlainText(key);
    KeyLineIsSingle(key);
    TokenizeOtherKey(key);
    ReadSingle(d, KeyLine(key));
  }

  lemma FailureStays(d: Doc, written: seq<string>)
    ensures d.Failed? ==> Read(d, written).Failed?
  {
    ReadExtends(d, AllLines(written));
  }

  lemma NamelessBlockFails(d: Doc, e: Entry, rest: seq<string>)
    requires !IsNamed(e)
    ensures Read(d, [KeyLine(Key(e))] + rest).Failed?
  {
    KeyIsTextIff(e);
    NullKeyFails(d, Key(e));
    ReadFirst(d, KeyLine(Key(e)), rest);
    FailureStays(Read(d, [KeyLine(Key(e))]), rest);
  }

  lemma KeyTextIsSingle(key: string)
    requires IsKeyText(key)
    ensures SingleLine(KeyLine(key)) && SingleLine(ServiceLine(key)) && SingleLine(MiddlewareLine(key))
  {
  }

  lemma KeyLineReads(d: Doc, key: string)
    requires d.Doc? && IsKeyText(key)
    ensures Read(d, [KeyLine(key)]) == Push(d, key)
  {
    KeyTextIsSingle(key);
    TokenizeKey(key);
    ReadSingle(d, KeyLine(key));
  }

  lemma ServiceLineReads(d: Doc, start: seq<Router>, r: Router, key: string)
    requires d.Doc? && d.section.Routers? && IsKeyText(key) && r.service.None?
    ensures Read(WithRouters(d, start + [r]), [ServiceLine(key)]) == WithRouters(d, start + [r.(service := Some(key))])
  {
    KeyTextIsSingle(key);
    TokenizeService(key);
    ReadSingle(WithRouters(d, start + [r]), ServiceLine(key));
  }

  lemma MiddlewareLineReads(d: Doc, start: seq<Router>, r: Router, name: string)
    requires d.Doc? && d.section.Routers? && IsKeyText(name) && r.middleware.None?
    ensures Read(WithRouters(d, start + [r]), [MiddlewareLine(name)]) == WithRouters(d, start + [r.(middleware := Some(name))])
  {
    KeyTextIsSingle(name);
    TokenizeMiddleware(name);
    ReadSingle(WithRouters(d, start + [r]), MiddlewareLine(name));
  }

  lemma HostnameIsSet(d: Doc, start: seq<Router>, r: Router, h: string)
    requires d.Doc? && d.section.Routers? && r.hostname.None?
    ensures var e := Consume(WithRouters(d, start + [r]), Rule(h));
            && e == WithRouters(d, start + [r.(hostname := Some(h))])
            && |e.config.routers| == |start| + 1 && e.config.routers[|start|].hostname == Some(h)
  {
    var rs := start + [r];
    assert rs[..|rs| - 1] == start && rs[|rs| - 1] == r;
  }

  /** A rule line sets the hostname meant if that is plain; otherwise reading fails or another hostname
      is set for good. */
  lemma RuleLineReads(d: Doc, start: seq<Router>, r: Router, h: string)
    requires d.Doc? && d.section.Routers? && r.hostname.None?
    ensures var e := Read(WithRouters(d, start + [r]), [RuleLine(h)]);
            if HostIsPlain(h) then e == WithRouters(d, start + [r.(hostname := Some(h))])
            else e.Failed? || (|start| < |e.config.routers| && e.config.routers[|start|].hostname.Some?
                               && e.config.routers[|start|].hostname != Some(h))
  {
    var d0 := WithRouters(d, start + [r]);
    var w := RuleLineReadsIff(h);
    FirstLineDecides(d0, RuleLine(h));
    TokenizeRule(w);
    var d1 := Consume(d0, RuleToken(w));
    if RuleToken(w).Rule? { HostnameIsSet(d, start, r, RuleToken(w).hostname); }
  }

  /** Reading has failed, or has given router k another hostname than h. */
  predicate HostLostAt(d: Doc, k: nat, h: string) {
    d.Failed? || (k < |d.config.routers| && d.config.routers[k].hostname.Some? && d.config.routers[k].hostname != Some(h))
  }

  lemma HostStaysLost(d: Doc, written: seq<string>, k: nat, h: string)
    requires HostLostAt(d, k, h)
    ensures HostLostAt(Read(d, written), k, h)
  {
    ReadExtends(d, AllLines(written));
  }

  lemma RouterBlockReads(d: Doc, e: Entry)
    requires d.Doc? && d.section.Routers?
    ensures RouterIsPlain(e) ==> Read(d, RouterBlock(e)) == WithRouters(d, d.config.routers + [RouterOf(e)])
    ensures !RouterIsPlain(e) ==> HostLostAt(Read(d, RouterBlock(e)), |d.config.routers|, e.route.hostname)
  {
    var key, h := Key(e), e.route.hostname;
    var middleware := if e.route.stripPrefix then [MiddlewareLine(key + "-strip")] else [];
    var rest := [ServiceLine(key)] + middleware;
    assert RouterBlock(e) == [KeyLine(key)] + ([RuleLine(h)] + rest);
    if IsNamed(e) {
      NamedRouterReads(d, e, rest);
    } else {
      NamelessBlockFails(d, e, [RuleLine(h)] + rest);
    }
  }

  lemma NamedRouterReads(d: Doc, e: Entry, rest: seq<string>)
    requires d.Doc? && d.section.Routers? && IsNamed(e)
    requires rest == [ServiceLine(Key(e))] + if e.route.stripPrefix then [MiddlewareLine(Key(e) + "-strip")] else []
    ensures var h, r := e.route.hostname, Read(d, [KeyLine(Key(e))] + ([RuleLine(e.route.hostname)] + rest));
            if HostIsPlain(h) then r == WithRouters(d, d.config.routers + [RouterOf(e)])
            else HostLostAt(r, |d.config.routers|, h)
  {
    var start, key, h := d.config.routers, Key(e), e.route.hostname;
    KeyIsTextIff(e);
    ReadFirst(d, KeyLine(key), [RuleLine(h)] + rest);
    KeyLineReads(d, key);
    var d0 := WithRouters(d, start + [Router(key, None, None, None)]);
    ReadFirst(d0, RuleLine(h), rest);
    RuleLineReads(d, start, Router(key, None, None, None), h);
    if HostIsPlain(h) {
      AttributesRead(d, start, Router(key, Some(h), None, None), e);
    } else {
      HostStaysLost(Read(d0, [RuleLine(h)]), rest, |start|, h);
    }
  }

  lemma AttributesRead(d: Doc, start: seq<Router>, r: Router, e: Entry)
    requires d.Doc? && d.section.Routers? && IsNamed(e) && r == Router(Key(e), Some(e.route.hostname), None, None)
    ensures Read(WithRouters(d, start + [r]),
                 [ServiceLine(Key(e))] + if e.route.stripPrefix then [MiddlewareLine(Key(e) + "-strip")] else [])
            == WithRouters(d, start + [RouterOf(e)])
  {
    var key := Key(e);
    var d0, s := WithRouters(d, start + [r]), r.(service := Some(key));
    KeyIsTextIff(e);
    ServiceLineReads(d, start, r, key);
    if e.route.stripPrefix {
      StripNameIsText(e);
      ReadFirst(d0, ServiceLine(key), [MiddlewareLine(key + "-strip")]);
      MiddlewareLineReads(d, start, s, key + "-strip");
    } else {
      assert [ServiceLine(key)] + [] == [ServiceLine(key)];
    }
  }

  lemma ReadLastBlock(d: Doc, es: seq<Entry>, block: Entry -> seq<string>)
    requires es != []
    ensures var n := |es| - 1; Read(d, Blocks(es, block)) == Read(Read(d, Blocks(es[..n], block)), block(es[n]))
  {
    ReadThen(d, Blocks(es[..|es| - 1], block), block(es[|es| - 1]));
  }

  lemma SomeStayLost(d: Doc, es: seq<Entry>, lost: (Doc, nat, Entry) -> bool, n: nat, e: Doc)
    requires n <= |es| && SomeLost(d, es[..n], lost)
    requires forall k, x :: lost(d, k, x) ==> lost(e, k, x)
    ensures SomeLost(e, es, lost)
  {
    var k: nat :| k < n && lost(d, k, es[..n][k]);
    assert lost(e, k, es[k]);
  }

  ghost predicate SomeLost(d: Doc, es: seq<Entry>, lost: (Doc, nat, Entry) -> bool) {
    exists k: nat :: k < |es| && lost(d, k, es[k])
  }

  ghost predicate AllPlain(es: seq<Entry>, plain: Entry -> bool) {
    forall k :: 0 <= k < |es| ==> plain(es[k])
  }

  /** A section whose blocks each read as meant if plain, and otherwise lose their entry for good. */
  lemma {:induction false} SectionReads(es: seq<Entry>, block: Entry -> seq<string>, plain: Entry -> bool,
                                        good: seq<Entry> -> Doc, lost: (Doc, nat, Entry) -> bool)
    requires forall s, e {:trigger Read(good(s), block(e))} :: plain(e) ==> Read(good(s), block(e)) == good(s + [e])
    requires forall s, e {:trigger Read(good(s), block(e))} :: !plain(e) ==> lost(Read(good(s), block(e)), |s|, e)
    requires forall d, k, e, b {:trigger lost(Read(d, block(b)), k, e)} :: lost(d, k, e) ==> lost(Read(d, block(b)), k, e)
    ensures AllPlain(es, plain) ==> Read(good([]), Blocks(es, block)) == good(es)
    ensures !AllPlain(es, plain) ==> SomeLost(Read(good([]), Blocks(es, block)), es, lost)
  {
    if es == [] {
      assert AllLines([]) == [];
    } else {
      var n := |es| - 1;
      SectionReads(es[..n], block, plain, good, lost);
      ReadLastBlock(good([]), es, block);
      assert es == es[..n] + [es[n]];
      if !AllPlain(es[..n], plain) {
        SomeStayLost(Read(good([]), Blocks(es[..n], block)), es, lost, n, Read(good([]), Blocks(es, block)));
      } else if !plain(es[n]) {
        assert lost(Read(good([]), Blocks(es, block)), n, es[n]);
      }
    }
  }

  lemma NextRouterReads(d: Doc, s: seq<Entry>, e: Entry)
    requires d.Doc? && d.section.Routers?
    ensures var r := Read(WithRouters(d, RoutersOf(s)), RouterBlock(e));
            if RouterIsPlain(e) then r == WithRouters(d, RoutersOf(s + [e]))
            else HostLostAt(r, |s|, e.route.hostname)
  {
    RouterBlockReads(WithRouters(d, RoutersOf(s)), e);
    assert RoutersOf(s + [e]) == RoutersOf(s) + [RouterOf(e)];
  }

  /** The router section says what is meant if every entry is named and every hostname plain; otherwise
      reading fails or some hostname comes out wrong. */
  lemma RoutersRead(d: Doc, es: seq<Entry>)
    requires d.Doc? && d.section.Routers? && d.config.routers == []
    ensures RoutersArePlain(es) ==> Read(d, Blocks(es, RouterBlock)) == WithRouters(d, RoutersOf(es))
    ensures !RoutersArePlain(es) ==>
              exists k: nat :: k < |es| && HostLostAt(Read(d, Blocks(es, RouterBlock)), k, es[k].route.hostname)
  {
    var good := (s: seq<Entry>) => WithRouters(d, RoutersOf(s));
    var plain := (e: Entry) => RouterIsPlain(e);
    var lost := (r: Doc, k: nat, e: Entry) => HostLostAt(r, k, e.route.hostname);
    forall s, e
      ensures plain(e) ==> Read(good(s), RouterBlock(e)) == good(s + [e])
      ensures !plain(e) ==> lost(Read(good(s), RouterBlock(e)), |s|, e)
    {
      NextRouterReads(d, s, e);
    }
    forall r, k, e, b | lost(r, k, e) ensures lost(Read(r, RouterBlock(b)), k, e) {
      HostStaysLost(r, RouterBlock(b), k, e.route.hostname);
    }
    assert good([]) == d;
    SectionReads(es, RouterBlock, plain, good, lost);
    if !RoutersArePlain(es) {
      assert !AllPlain(es, plain);
      var k: nat :| k < |es| && lost(Read(d, Blocks(es, RouterBlock)), k, es[k]);
    }
  }

  predicate AddressLostAt(d: Doc, k: nat, a: string) {
    d.Failed? || (k < |d.config.services| && d.config.services[k].address.Some? && d.config.services[k].address != Some(a))
  }

  lemma AddressStaysLost(d: Doc, written: seq<string>, k: nat, a: string)
    requires AddressLostAt(d, k, a)
    ensures AddressLostAt(Read(d, written), k, a)
  {
    ReadExtends(d, AllLines(written));
  }

  lemma FixedLineReads(d: Doc, line: string)
    requires d.Doc? && (d.section.Services? || d.section.Middlewares?) && Fixes(line)
    ensures Read(d, [line]) == d
  {
    ReadSingle(d, line);
  }

  lemma FixedLinesRead(d: Doc, first: string, second: string, rest: seq<string>)
    requires d.Doc? && (d.section.Services? || d.section.Middlewares?)
    requires Fixes(first) && Fixes(second)
    ensures Read(d, [first] + ([second] + rest)) == Read(d, rest)
  {
    ReadFirst(d, first, [second] + rest);
    FixedLineReads(d, first);
    ReadFirst(d, second, rest);
    FixedLineReads(d, second);
  }

  lemma AddressIsSet(d: Doc, start: seq<Backend>, key: string, address: string)
    requires d.Doc? && d.section.Services?
    ensures var e := Consume(WithServices(d, start + [Backend(key, None)]), Url(address));
            && e == WithServices(d, start + [Backend(key, Some(address))])
            && |e.config.services| == |start| + 1 && e.config.services[|start|].address == Some(address)
  {
    var ss := start + [Backend(key, None)];
    assert ss[..|ss| - 1] == start && ss[|ss| - 1] == Backend(key, None);
  }

  lemma UrlLineReads(d: Doc, start: seq<Backend>, e: Entry)
    requires d.Doc? && d.section.Services?
    ensures NameIsPlain(e.stack.name) ==>
              Read(WithServices(d, start + [Backend(Key(e), None)]), [UrlLine(Address(e))])
              == WithServices(d, start + [Backend(Key(e), Some(Address(e)))])
    ensures !NameIsPlain(e.stack.name) ==>
              AddressLostAt(Read(WithServices(d, start + [Backend(Key(e), None)]), [UrlLine(Address(e))]), |start|, Address(e))
  {
    var d0 := WithServices(d, start + [Backend(Key(e), None)]);
    var w := UrlLineReadsIff(e);
    FirstLineDecides(d0, UrlLine(Address(e)));
    TokenizeUrl(w);
    var d1 := Consume(d0, UrlToken(w));
    if UrlToken(w).Url? { AddressIsSet(d, start, Key(e), UrlToken(w).address); }
  }

  lemma BackendStarts(d: Doc, key: string, first: string, second: string, rest: seq<string>)
    requires d.Doc? && d.section.Services? && IsKeyText(key)
    requires Fixes(first) && Fixes(second)
    ensures Read(d, [KeyLine(key)] + ([first] + ([second] + rest)))
            == Read(WithServices(d, d.config.services + [Backend(key, None)]), rest)
  {
    ReadFirst(d, KeyLine(key), [first] + ([second] + rest));
    KeyLineReads(d, key);
    FixedLinesRead(WithServices(d, d.config.services + [Backend(key, None)]), first, second, rest);
  }

  lemma ServiceBlockStarts(d: Doc, e: Entry)
    requires d.Doc? && d.section.Services? && IsNamed(e)
    ensures Read(d, ServiceBlock(e))
            == Read(WithServices(d, d.config.services + [Backend(Key(e), None)]), [UrlLine(Address(e))])
  {
    KeyIsTextIff(e);
    ServiceLinesFix();
    BackendStarts(d, Key(e), BALANCER, SERVERS, [UrlLine(Address(e))]);
    ServiceBlockInParts(e);
  }

  lemma ServiceBlockInParts(e: Entry)
    ensures ServiceBlock(e) == [KeyLine(Key(e))] + ([BALANCER] + ([SERVERS] + [UrlLine(Address(e))]))
  {
  }

  predicate ServiceIsPlain(e: Entry) {
    IsNamed(e) && NameIsPlain(e.stack.name)
  }

  lemma ServiceBlockReads(d: Doc, e: Entry)
    requires d.Doc? && d.section.Services?
    ensures ServiceIsPlain(e) ==>
              Read(d, ServiceBlock(e)) == WithServices(d, d.config.services + [Backend(Key(e), Some(Address(e)))])
    ensures !ServiceIsPlain(e) ==> AddressLostAt(Read(d, ServiceBlock(e)), |d.config.services|, Address(e))
  {
    if IsNamed(e) {
      ServiceBlockStarts(d, e);
      UrlLineReads(d, d.config.services, e);
    } else {
      ServiceBlockInParts(e);
      NamelessBlockFails(d, e, [BALANCER] + ([SERVERS] + [UrlLine(Address(e))]));
    }
  }

  lemma NamedBlockReads(d: Doc, name: string, first: string, second: string)
    requires d.Doc? && d.section.Middlewares? && IsKeyText(name)
    requires Fixes(first) && Fixes(second)
    ensures Read(d, [KeyLine(name)] + ([first] + [second])) == WithMiddlewares(d, d.config.middlewares + [name])
  {
    ReadFirst(d, KeyLine(name), [first] + [second]);
    KeyLineReads(d, name);
    assert [second] + [] == [second];
    FixedLinesRead(WithMiddlewares(d, d.config.middlewares + [name]), first, second, []);
  }

  lemma MiddlewareBlockInParts(e: Entry)
    requires e.route.stripPrefix
    ensures MiddlewareBlock(e) == [KeyLine(Key(e) + "-strip")] + ([STRIP_PREFIX] + [PREFIXES])
  {
  }

  lemma MiddlewareBlockReads(d: Doc, e: Entry)
    requires d.Doc? && d.section.Middlewares?
    ensures Read(d, MiddlewareBlock(e))
            == WithMiddlewares(d, d.config.middlewares + if e.route.stripPrefix then [Key(e) + "-strip"] else [])
  {
    if e.route.stripPrefix {
      StripNameIsText(e);
      MiddlewareLinesFix();
      NamedBlockReads(d, Key(e) + "-strip", STRIP_PREFIX, PREFIXES);
      MiddlewareBlockInParts(e);
    } else {
      assert d.config.middlewares + [] == d.config.middlewares;
    }
  }

  lemma NextServiceReads(d: Doc, s: seq<Entry>, e: Entry)
    requires d.Doc? && d.section.Services?
    ensures var r := Read(WithServices(d, BackendsOf(s)), ServiceBlock(e));
            if ServiceIsPlain(e) then r == WithServices(d, BackendsOf(s + [e]))
            else AddressLostAt(r, |s|, Address(e))
  {
    ServiceBlockReads(WithServices(d, BackendsOf(s)), e);
    assert BackendsOf(s + [e]) == BackendsOf(s) + [Backend(Key(e), Some(Address(e)))];
  }

  /** Likewise the service section, for stack names and addresses. */
  lemma ServicesRead(d: Doc, es: seq<Entry>)
    requires d.Doc? && d.section.Services? && d.config.services == [] && RoutersArePlain(es)
    ensures StacksArePlain(es) ==> Read(d, Blocks(es, ServiceBlock)) == WithServices(d, BackendsOf(es))
    ensures !StacksArePlain(es) ==>
              exists k: nat :: k < |es| && AddressLostAt(Read(d, Blocks(es, ServiceBlock)), k, Address(es[k]))
  {
    var good := (s: seq<Entry>) => WithServices(d, BackendsOf(s));
    var plain := (e: Entry) => ServiceIsPlain(e);
    var lost := (r: Doc, k: nat, e: Entry) => AddressLostAt(r, k, Address(e));
    forall s, e
      ensures plain(e) ==> Read(good(s), ServiceBlock(e)) == good(s + [e])
      ensures !plain(e) ==> lost(Read(good(s), ServiceBlock(e)), |s|, e)
    {
      NextServiceReads(d, s, e);
    }
    forall r, k, e, b | lost(r, k, e) ensures lost(Read(r, ServiceBlock(b)), k, e) {
      AddressStaysLost(r, ServiceBlock(b), k, Address(e));
    }
    assert good([]) == d;
    SectionReads(es, ServiceBlock, plain, good, lost);
    if !StacksArePlain(es) {
      assert !AllPlain(es, plain);
      var k: nat :| k < |es| && lost(Read(d, Blocks(es, ServiceBlock)), k, es[k]);
    }
  }

  lemma {:induction false} MiddlewaresRead(d: Doc, es: seq<Entry>)
    requires d.Doc? && d.section.Middlewares? && d.config.middlewares == []
    ensures Read(d, Blocks(es, MiddlewareBlock)) == WithMiddlewares(d, StripNames(es))
  {
    if es != [] {
      var n := |es| - 1;
      MiddlewaresRead(d, es[..n]);
      ReadLastBlock(d, es, MiddlewareBlock);
      MiddlewareBlockReads(WithMiddlewares(d, StripNames(es[..n])), es[n]);
    }
  }

  lemma PlaceholderReads(d: Doc, lines: seq<string>, placeholder: string)
    requires HoldsPlace(placeholder) && d.Doc? && SectionIsEmpty(d)
    ensures Read(d, OrElse(lines, placeholder)) == Read(d, lines)
  {
    if lines == [] {
      ReadSingle(d, placeholder);
    }
  }

  lemma HeadingReads(d: Doc, line: string)
    requires SingleLine(line)
    ensures Read(d, ["", line]) == Consume(d, Tokenize(line))
  {
    assert ["", line] == [""] + [line];
    ReadFirst(d, "", [line]);
    ReadSingle(d, "");
    ReadSingle(d, line);
  }

  lemma HeadingsAreSingle()
    ensures SingleLine("http:") && SingleLine("  routers:") && SingleLine("  services:") && SingleLine("  middlewares:")
  {
  }

  lemma HeadingMoves(d: Doc, line: string, section: Section)
    requires d.Doc? && SingleLine(line) && Tokenize(line) == Heading(section) && section == After(d.section) && !section.Start?
    ensures Read(d, ["", line]) == d.(section := section)
  {
    HeadingReads(d, line);
  }

  lemma HttpHeadingReads(d: Doc)
    ensures Read(d, ["", "http:"]) == Consume(d, Heading(Http))
  {
    TokenizeHttp();
    HeadingReads(d, "http:");
  }

  lemma RoutersHeadingReads(d: Doc)
    ensures Read(d, ["  routers:"]) == Consume(d, Heading(Routers))
  {
    TokenizeRouters();
    ReadSingle(d, "  routers:");
  }

  // ---------------------------------------------------------------- the header

  lemma {:induction false} CommentReads(lines: seq<string>)
    requires forall k :: 0 <= k < |lines| ==> Ignorable(lines[k])
    ensures ReadFrom(Blank, lines) == Blank
    decreases |lines|
  {
    if lines != [] {
      IgnoredIffIgnorable(0, lines[0]);
      CommentReads(lines[1..]);
    }
  }

  /** Before the first heading anything but comments fails, or is taken for that heading. */
  lemma {:induction false} StrayLineSpoils(lines: seq<string>, k: nat)
    requires k < |lines| && !Ignorable(lines[k])
    ensures ReadFrom(Blank, lines).Failed? || !ReadFrom(Blank, lines).section.Start?
    decreases |lines|
  {
    var d := Consume(Blank, Tokenize(lines[0]));
    IgnoredIffIgnorable(0, lines[0]);
    if Ignorable(lines[0]) {
      StrayLineSpoils(lines[1..], k - 1);
    } else {
      assert d.Failed? || d.section.Http?;
      ReadExtends(d, lines[1..]);
      assert Extends(d, ReadFrom(d, lines[1..]));
    }
  }

  lemma FirstLineIsComment(first: string)
    requires first != [] && first[0] == '#' && SingleLine(first)
    ensures Read(Blank, [first]) == Blank
  {
    ReadSingle(Blank, first);
  }

  lemma CommentsRead(first: string, second: string)
    requires first != [] && first[0] == '#' && SingleLine(first)
    ensures Read(Blank, [first] + [second]) == ReadFrom(Blank, Lines(second))
    ensures if forall k :: 0 <= k < |Lines(second)| ==> Ignorable(Lines(second)[k])
            then ReadFrom(Blank, Lines(second)) == Blank
            else ReadFrom(Blank, Lines(second)).Failed? || !ReadFrom(Blank, Lines(second)).section.Start?
  {
    ReadFirst(Blank, first, [second]);
    FirstLineIsComment(first);
    ReadOne(Blank, second);
    if k: nat :| k < |Lines(second)| && !Ignorable(Lines(second)[k]) {
      StrayLineSpoils(Lines(second), k);
    } else {
      CommentReads(Lines(second));
    }
  }

  lemma FirstHeaderLine(network: Network)
    ensures var first := HeaderLines(network)[0]; first != [] && first[0] == '#' && SingleLine(first)
    ensures HeaderLines(network) == [HeaderLines(network)[0]] + [HeaderLines(network)[1]] + (["", "http:"] + ["  routers:"])
  {
  }

  /** The header reads as nothing exactly when the network's comment is one on all its lines. */
  lemma HeaderReads(network: Network)
    ensures NetworkIsComment(network) ==> Read(Blank, HeaderLines(network)) == Blank.(section := Routers)
    ensures !NetworkIsComment(network) ==> Read(Blank, HeaderLines(network)).Failed?
  {
    FirstHeaderLine(network);
    var first, second := HeaderLines(network)[0], HeaderLines(network)[1];
    CommentsRead(first, second);
    ReadThen(Blank, [first] + [second], ["", "http:"] + ["  routers:"]);
    HttpReads(ReadFrom(Blank, Lines(second)));
  }

  lemma HttpReads(d: Doc)
    ensures d == Blank ==> Read(d, ["", "http:"] + ["  routers:"]) == Blank.(section := Routers)
    ensures d.Failed? || !d.section.Start? ==> Read(d, ["", "http:"] + ["  routers:"]).Failed?
  {
    ReadThen(d, ["", "http:"], ["  routers:"]);
    HttpHeadingReads(d);
    RoutersHeadingReads(Consume(d, Heading(Http)));
    HeadingOrder(d);
  }

  lemma HeadingOrder(d: Doc)
    ensures d == Blank ==> Consume(Consume(d, Heading(Http)), Heading(Routers)) == Blank.(section := Routers)
    ensures d.Failed? || !d.section.Start? ==> Consume(Consume(d, Heading(Http)), Heading(Routers)) == Failed
  {
  }

  // ---------------------------------------------------------------- the whole text

  function RouterPart(es: seq<Entry>): seq<string> { OrElse(Blocks(es, RouterBlock), NO_ROUTES) }

  function ServicePart(es: seq<Entry>): seq<string> { OrElse(Blocks(es, ServiceBlock), NO_SERVICES) }

  function MiddlewarePart(es: seq<Entry>): seq<string> { OrElse(Blocks(es, MiddlewareBlock), NO_MIDDLEWARES) }

  function FromServices(es: seq<Entry>): seq<string> {
    TO_SERVICES + (ServicePart(es) + (TO_MIDDLEWARES + MiddlewarePart(es)))
  }

  lemma ConfigInParts(network: Network, es: seq<Entry>)
    ensures ConfigLines(network, es) == HeaderLines(network) + (RouterPart(es) + FromServices(es))
  {
  }

  lemma RouterPartReads(d: Doc, es: seq<Entry>)
    requires d.Doc? && d.section.Routers? && d.config.routers == []
    ensures Read(d, RouterPart(es)) == Read(d, Blocks(es, RouterBlock))
  {
    PlaceholdersHold();
    PlaceholderReads(d, Blocks(es, RouterBlock), NO_ROUTES);
  }

  lemma ServicePartReads(d: Doc, es: seq<Entry>)
    requires d.Doc? && d.section.Services? && d.config.services == []
    ensures Read(d, ServicePart(es)) == Read(d, Blocks(es, ServiceBlock))
  {
    PlaceholdersHold();
    PlaceholderReads(d, Blocks(es, ServiceBlock), NO_SERVICES);
  }

  lemma MiddlewarePartReads(d: Doc, es: seq<Entry>)
    requires d.Doc? && d.section.Middlewares? && d.config.middlewares == []
    ensures Read(d, MiddlewarePart(es)) == WithMiddlewares(d, StripNames(es))
  {
    PlaceholdersHold();
    PlaceholderReads(d, Blocks(es, MiddlewareBlock), NO_MIDDLEWARES);
    MiddlewaresRead(d, es);
  }

  const TO_SERVICES := ["", "  services:"]
  const TO_MIDDLEWARES := ["", "  middlewares:"]

  lemma ToServicesReads(d: Doc)
    requires d.Doc? && d.section.Routers?
    ensures Read(d, TO_SERVICES) == d.(section := Services)
  {
    TokenizeServices();
    HeadingsAreSingle();
    HeadingMoves(d, "  services:", Services);
  }

  lemma ToMiddlewaresReads(d: Doc)
    requires d.Doc? && d.section.Services?
    ensures Read(d, TO_MIDDLEWARES) == d.(section := Middlewares)
  {
    TokenizeMiddlewares();
    HeadingsAreSingle();
    HeadingMoves(d, "  middlewares:", Middlewares);
  }

  lemma FromMiddlewaresReads(d: Doc, es: seq<Entry>)
    requires d.Doc? && d.section.Services? && d.config.middlewares == []
    ensures Read(d, TO_MIDDLEWARES + MiddlewarePart(es)) == WithMiddlewares(d.(section := Middlewares), StripNames(es))
  {
    ReadThen(d, TO_MIDDLEWARES, MiddlewarePart(es));
    ToMiddlewaresReads(d);
    MiddlewarePartReads(d.(section := Middlewares), es);
  }

  lemma FromServicesReads(d: Doc, es: seq<Entry>)
    requires d.Doc? && d.section.Routers? && d.config.services == [] && d.config.middlewares == []
    requires RoutersArePlain(es)
    ensures if StacksArePlain(es)
            then Read(d, FromServices(es)) == Doc(Middlewares, Config(d.config.routers, BackendsOf(es), StripNames(es)))
            else exists k: nat :: k < |es| && AddressLostAt(Read(d, FromServices(es)), k, Address(es[k]))
  {
    var rest := TO_MIDDLEWARES + MiddlewarePart(es);
    var d1 := d.(section := Services);
    ReadThen(d, TO_SERVICES, ServicePart(es) + rest);
    ToServicesReads(d);
    ReadThen(d1, ServicePart(es), rest);
    ServicePartReads(d1, es);
    ServicesRead(d1, es);
    if StacksArePlain(es) {
      FromMiddlewaresReads(WithServices(d1, BackendsOf(es)), es);
    } else {
      var k: nat :| k < |es| && AddressLostAt(Read(d1, ServicePart(es)), k, Address(es[k]));
      AddressStaysLost(Read(d1, ServicePart(es)), rest, k, Address(es[k]));
    }
  }

  lemma LostHostIsNotMeant(d: Doc, es: seq<Entry>, k: nat)
    requires k < |es| && HostLostAt(d, k, es[k].route.hostname)
    ensures d.Failed? || d.config != ConfigOf(es)
  {
    assert RoutersOf(es)[k].hostname == Some(es[k].route.hostname);
  }

  lemma LostAddressIsNotMeant(d: Doc, es: seq<Entry>, k: nat)
    requires k < |es| && AddressLostAt(d, k, Address(es[k]))
    ensures d.Failed? || d.config != ConfigOf(es)
  {
    assert BackendsOf(es)[k].address == Some(Address(es[k]));
  }

  /** All names plain: the lines read as exactly the config meant. Any other names: they do not. */
  lemma LinesReadBackIff(network: Network, es: seq<Entry>)
    ensures Read(Blank, ConfigLines(network, es)) == Doc(Middlewares, ConfigOf(es))
            <==> NetworkIsComment(network) && RoutersArePlain(es) && StacksArePlain(es)
    ensures Read(Blank, ConfigLines(network, es)) != Doc(Middlewares, ConfigOf(es)) ==>
              Read(Blank, ConfigLines(network, es)).Failed? || Read(Blank, ConfigLines(network, es)).config != ConfigOf(es)
  {
    var d1, rest := Read(Blank, HeaderLines(network)), RouterPart(es) + FromServices(es);
    ConfigInParts(network, es);
    ReadThen(Blank, HeaderLines(network), rest);
    HeaderReads(network);
    if NetworkIsComment(network) {
      RestReadsIff(d1, es);
    } else {
      ReadExtends(Failed, AllLines(rest));
    }
  }

  lemma RestReadsIff(d: Doc, es: seq<Entry>)
    requires d == Blank.(section := Routers)
    ensures var e := Read(d, RouterPart(es) + FromServices(es));
            if RoutersArePlain(es) && StacksArePlain(es) then e == Doc(Middlewares, ConfigOf(es))
            else e.Failed? || e.config != ConfigOf(es)
  {
    var d2 := Read(d, RouterPart(es));
    ReadThen(d, RouterPart(es), FromServices(es));
    RouterPartReads(d, es);
    RoutersRead(d, es);
    if RoutersArePlain(es) {
      FromServicesReads(d2, es);
      if !StacksArePlain(es) {
        var k: nat :| k < |es| && AddressLostAt(Read(d2, FromServices(es)), k, Address(es[k]));
        LostAddressIsNotMeant(Read(d2, FromServices(es)), es, k);
      }
    } else {
      var k: nat :| k < |es| && HostLostAt(d2, k, es[k].route.hostname);
      HostStaysLost(d2, FromServices(es), k, es[k].route.hostname);
      LostHostIsNotMeant(Read(d2, FromServices(es)), es, k);
    }
  }

  lemma {:induction false} LinesAppend(line: string, rest: string)
    ensures Lines(line + "\n" + rest) == Lines(line) + Lines(rest)
    decreases |line|
  {
    var s := line + "\n" + rest;
    var k := LineEnd(line);
    assert forall i :: 0 <= i < k ==> line[..k][i] == line[i];
    assert s[..k] == line[..k];
    FirstBreak(s, k);
    FirstLine(s);
    FirstLine(line);
    if k < |line| {
      assert s[k + 1..] == line[k + 1..] + "\n" + rest;
      LinesAppend(line[k + 1..], rest);
    } else {
      assert s[k + 1..] == rest;
    }
  }

  /** The text splits into the lines of what was written, and one more empty one. */
  lemma {:induction false} TextLines(written: seq<string>)
    ensures Lines(Text(written)) == AllLines(written) + [""]
  {
    if written == [] {
      SingleHasOneLine("");
    } else {
      TextLines(written[1..]);
      LinesAppend(written[0], Text(written[1..]));
    }
  }

  lemma LastLineIsIgnored(d: Doc)
    ensures ReadFrom(d, [""]) == d
  {
    assert ReadFrom(Consume(d, Tokenize("")), []) == Consume(d, Tokenize(""));
  }

  lemma TextReads(written: seq<string>)
    ensures ReadFrom(Blank, Lines(Text(written))) == Read(Blank, written)
  {
    TextLines(written);
    ReadAppend(Blank, AllLines(written), [""]);
    LastLineIsIgnored(Read(Blank, written));
  }

  // ---------------------------------------------------------------- keys

  lemma {:induction false} StripNamesAreDistinct(es: seq<Entry>)
    requires KeysAreDistinct(es)
    ensures Unrepeated(StripNames(es))
    ensures forall name :: name in StripNames(es) ==> exists k :: 0 <= k < |es| && name == Key(es[k]) + "-strip"
  {
    if es != [] {
      var n := |es| - 1;
      StripNamesAreDistinct(es[..n]);
      forall k | 0 <= k < n ensures Key(es[k]) + "-strip" != Key(es[n]) + "-strip" {
        StripIsInjective(Key(es[k]), Key(es[n]));
      }
      assert Key(es[n]) + "-strip" !in StripNames(es[..n]);
      forall name | name in StripNames(es[..n]) ensures exists k :: 0 <= k < |es| && name == Key(es[k]) + "-strip" {
        var k :| 0 <= k < |es[..n]| && name == Key(es[..n][k]) + "-strip";
        assert name == Key(es[k]) + "-strip";
      }
    }
  }

  lemma StripIsInjective(a: string, b: string)
    ensures a + "-strip" == b + "-strip" ==> a == b
  {
    assert (a + "-strip")[..|a + "-strip"| - 6] == a && (b + "-strip")[..|b + "-strip"| - 6] == b;
  }

  lemma UnambiguousIff(es: seq<Entry>)
    ensures Unambiguous(ConfigOf(es)) <==> KeysAreDistinct(es)
  {
    assert forall k :: 0 <= k < |es| ==> RouterKeys(ConfigOf(es))[k] == Key(es[k]) == ServiceKeys(ConfigOf(es))[k];
    if KeysAreDistinct(es) {
      StripNamesAreDistinct(es);
    } else {
      var i, j :| 0 <= i < j < |es| && Key(es[i]) == Key(es[j]);
      assert RouterKeys(ConfigOf(es))[i] == RouterKeys(ConfigOf(es))[j];
    }
  }

  // ---------------------------------------------------------------- main results

  /** The generated text reads back as the config meant, a router and a service for each entry and the
      middlewares of the stripped ones, exactly when every entry has a letter or digit to be named by and
      no key means null, the names are plain, the network's comment stays one, and no two entries share
      a key. */
  lemma TextReadsBackIff(network: Network, es: seq<Entry>)
    ensures ReadText(Text(ConfigLines(network, es))) == Some(ConfigOf(es)) <==> Readable(network, es)
  {
    TextReads(ConfigLines(network, es));
    LinesReadBackIff(network, es);
    UnambiguousIff(es);
  }

  /** The middlewares that routers ask for, in order. */
  function References(routers: seq<Router>): seq<string> {
    if routers == [] then []
    else
      var n := |routers| - 1;
      References(routers[..n]) + if routers[n].middleware.Some? then [routers[n].middleware.value] else []
  }

  lemma {:induction false} ReferencesAreStripNames(es: seq<Entry>)
    ensures References(RoutersOf(es)) == StripNames(es)
  {
    if es == [] {
      assert RoutersOf(es) == [];
    } else {
      var n := |es| - 1;
      ReferencesAreStripNames(es[..n]);
      assert RoutersOf(es)[..n] == RoutersOf(es[..n]);
    }
  }

  /** A config is closed when routers and services carry the same keys in the same order, every router
      names the service of its own key, and the middlewares defined are those referenced. */
  ghost predicate Closed(c: Config) {
    && |c.routers| == |c.services|
    && (forall k :: 0 <= k < |c.routers| ==>
          c.routers[k].key == c.services[k].key && c.routers[k].service == Some(c.routers[k].key))
    && (forall k :: 0 <= k < |c.routers| ==> IsLabel(c.routers[k].key))
    && References(c.routers) == c.middlewares
  }

  lemma MeantIsClosed(es: seq<Entry>)
    ensures Closed(ConfigOf(es))
  {
    ReferencesAreStripNames(es);
    forall k | 0 <= k < |es| ensures IsLabel(RoutersOf(es)[k].key) {
      LabelIsClean(es[k].stack.name + "-" + es[k].route.hostname);
    }
  }

  /** On every readable input the text returned by the generator reads as a closed config, with one
      router and one service for each route of a listed stack. */
  lemma ConfigIsClosed(network: Network, stacks: seq<Stack>, routes: seq<Route>)
    requires Readable(network, Listed(stacks, routes))
    ensures var c := ReadText(Text(ConfigLines(network, Listed(stacks, routes))));
            c.Some? && Closed(c.value) && |c.value.routers| == |Listed(stacks, routes)|
  {
    TextReadsBackIff(network, Listed(stacks, routes));
    MeantIsClosed(Listed(stacks, routes));
  }

  // ---------------------------------------------------------------- where the services lead

  /** The parts before and behind the last colon. */
  function AtLastColon(s: string): Option<(string, string)>
    decreases |s|
  {
    if s == [] then None
    else
      var n := |s| - 1;
      if s[n] == ':' then Some((s[..n], ""))
      else
        var r := AtLastColon(s[..n]);
        if r.None? then None else Some((r.value.0, r.value.1 + [s[n]]))
  }

  /** A whole text of digits, without superfluous leading zeros, as a number. */
  function ReadNatural(s: string): Option<nat> {
    if s == [] || Subnet.DigitRun(s) < |s| || (|s| > 1 && s[0] == '0') then None else Some(Subnet.ValueOf(s))
  }

  function ReadPort(s: string): Option<int> {
    var negative := s != [] && s[0] == '-';
    var n := ReadNatural(if negative then s[1..] else s);
    if n.None? then None
    else
      var port: int := if negative then -(n.value as int) else n.value;
      Some(port)
  }

  /** An address as the name and the port it gives. */
  function ReadAddress(a: string): Option<(string, int)> {
    var r := AtLastColon(a);
    if r.None? || ReadPort(r.value.1).None? then None else Some((r.value.0, ReadPort(r.value.1).value))
  }

  lemma NaturalReads(n: nat)
    ensures ReadNatural(Subnet.Decimal(n)) == Some(n) && Subnet.Decimal(n) != "" && Subnet.Decimal(n)[0] != '-'
  {
    Subnet.DecimalReads(n);
    Subnet.DigitRunStops(Subnet.Decimal(n), "");
    assert Subnet.Decimal(n) + "" == Subnet.Decimal(n);
  }

  lemma PortReads(port: int)
    ensures ReadPort(PortText(port)) == Some(port)
  {
    if port < 0 {
      NaturalReads(-port);
      assert PortText(port)[1..] == Subnet.Decimal(-port);
    } else {
      NaturalReads(port);
    }
  }

  lemma PortHasNoColon(port: int)
    ensures ':' !in PortText(port)
  {
    Subnet.DecimalReads(if port < 0 then -port else port);
  }

  lemma {:induction false} LastColonSplits(name: string, port: string)
    requires ':' !in port
    ensures AtLastColon(name + ":" + port) == Some((name, port))
    decreases |port|
  {
    var s := name + ":" + port;
    var n := |s| - 1;
    if port == [] {
      assert s[..n] == name;
    } else {
      var k := |port| - 1;
      LastColonSplits(name, port[..k]);
      assert s[..n] == name + ":" + port[..k];
      assert port[..k] + [port[k]] == port;
    }
  }

  /** The address of an entry reads as the name of its stack and the port of its route. */
  lemma AddressReads(e: Entry)
    ensures ReadAddress(Address(e)) == Some((e.stack.name, e.route.port))
  {
    PortHasNoColon(e.route.port);
    LastColonSplits(e.stack.name, PortText(e.route.port));
    PortReads(e.route.port);
  }

  /** A router and a service that lead from the hostname of a route to its stack and port, by way of one
      key, and through a middleware exactly when the prefix is stripped. */
  predicate LeadsTo(r: Router, b: Backend, stack: Stack, route: Route) {
    && r.hostname == Some(route.hostname)
    && r.key == b.key == Label(stack.name + "-" + route.hostname) && r.service == Some(b.key)
    && r.middleware == (if route.stripPrefix then Some(r.key + "-strip") else None)
    && b.address.Some? && ReadAddress(b.address.value) == Some((stack.name, route.port))
  }

  lemma EntryLeads(e: Entry)
    ensures LeadsTo(RouterOf(e), Backend(Key(e), Some(Address(e))), e.stack, e.route)
  {
    AddressReads(e);
  }

  /** On every readable input, what the text says leads from every hostname to the stack and the port of its
      route: one router and one service for each pair of a stack and a route of its own, in order. */
  lemma TextLeadsToStacks(network: Network, stacks: seq<Stack>, routes: seq<Route>) returns (at: seq<Visit>)
    requires Readable(network, Listed(stacks, routes))
    ensures InOrder(at) && forall v :: v in at <==> IsVisit(stacks, routes, v)
    ensures forall k :: 0 <= k < |at| ==> at[k].stack < |stacks| && at[k].route < |routes|
    ensures var c := ReadText(Text(ConfigLines(network, Listed(stacks, routes))));
            && c.Some? && |c.value.routers| == |c.value.services| == |at|
            && forall k :: 0 <= k < |at| ==>
                 LeadsTo(c.value.routers[k], c.value.services[k], stacks[at[k].stack], routes[at[k].route])
  {
    var es := Listed(stacks, routes);
    at := ListedInOrder(stacks, routes);
    TextReadsBackIff(network, es);
    forall k | 0 <= k < |es|
      ensures at[k].stack < |stacks| && at[k].route < |routes|
      ensures LeadsTo(RoutersOf(es)[k], BackendsOf(es)[k], stacks[at[k].stack], routes[at[k].route])
    {
      assert PairAt(es[k], stacks, routes, at[k]);
      EntryLeads(es[k]);
    }
  }

  // ---------------------------------------------------------------- names that do not read back

  lemma {:induction false} NoClosingQuote(s: string)
    requires '"' !in s
    ensures Unquote(s) == None
    decreases |s|
  {
    if s != [] {
      if s[0] == '\\' && |s| > 1 { NoClosingQuote(s[2..]); } else { NoClosingQuote(s[1..]); }
    }
  }

  /** A quoted value with a break in it leaves its quote open on the first line. */
  lemma BrokenQuote(start: string, v: string) returns (w: string)
    requires SingleLine(start) && !SingleLine(v) && '"' !in v
    ensures Lines(start + v + "\"")[0] == start + w && '"' !in w
  {
    var s := v + "\"";
    var k := LineEnd(s);
    w := s[..k];
    assert start + v + "\"" == start + s;
    LineEndAfter(start, s);
    FirstLine(start + s);
    assert (start + s)[..|start| + k] == start + w;
    assert forall i :: 0 <= i < k ==> s[..k][i] == s[i];
    assert forall i :: 0 <= i < |v| ==> s[i] == v[i];
  }

  lemma BrokenRule(h: string) returns (w: string)
    requires !SingleLine(h) && '"' !in h
    ensures Lines(RuleLine(h))[0] == RULE_START + w && '"' !in w
  {
    var v := "Host(`" + h + "`)";
    assert RuleLine(h) == RULE_START + v + "\"";
    assert forall i :: 0 <= i < |h| ==> v[6 + i] == h[i];
    w := BrokenQuote(RULE_START, v);
  }

  lemma RouterBlockStarts(d: Doc, e: Entry) returns (rest: seq<string>)
    ensures Read(d, RouterBlock(e)) == Read(Read(Read(d, [KeyLine(Key(e))]), [RuleLine(e.route.hostname)]), rest)
  {
    var key, rule := KeyLine(Key(e)), RuleLine(e.route.hostname);
    rest := RouterBlock(e)[2..];
    assert RouterBlock(e) == [key] + ([rule] + rest);
    ReadFirst(d, key, [rule] + rest);
    ReadFirst(Read(d, [key]), rule, rest);
  }

  /** An entry whose router block no text around it can repair. */
  predicate IsBroken(e: Entry) {
    !IsNamed(e) || (!SingleLine(e.route.hostname) && '"' !in e.route.hostname)
  }

  lemma BrokenBlockFails(d: Doc, e: Entry)
    requires IsBroken(e)
    ensures Read(d, RouterBlock(e)).Failed?
  {
    var rest := RouterBlockStarts(d, e);
    var d1 := Read(d, [KeyLine(Key(e))]);
    if IsNamed(e) {
      BrokenRuleFails(d1, e.route.hostname);
    } else {
      KeyIsTextIff(e);
      NullKeyFails(d, Key(e));
      FailureStays(d1, [RuleLine(e.route.hostname)]);
    }
    FailureStays(Read(d1, [RuleLine(e.route.hostname)]), rest);
  }

  lemma BrokenRuleFails(d: Doc, h: string)
    requires !SingleLine(h) && '"' !in h
    ensures Read(d, [RuleLine(h)]).Failed?
  {
    var w := BrokenRule(h);
    NoClosingQuote(w);
    TokenizeRule(w);
    FirstLineDecides(d, RuleLine(h));
  }

  lemma {:induction false} BlocksFail(d: Doc, es: seq<Entry>, k: nat)
    requires k < |es| && IsBroken(es[k])
    ensures Read(d, Blocks(es, RouterBlock)).Failed?
  {
    var n := |es| - 1;
    ReadLastBlock(d, es, RouterBlock);
    var d1 := Read(d, Blocks(es[..n], RouterBlock));
    if k < n {
      BlocksFail(d, es[..n], k);
      FailureStays(d1, RouterBlock(es[n]));
    } else {
      BrokenBlockFails(d1, es[n]);
    }
  }

  /** One broken entry makes the whole text no config at all. */
  lemma BrokenEntryIsRejected(network: Network, es: seq<Entry>, k: nat)
    requires k < |es| && IsBroken(es[k])
    ensures ReadText(Text(ConfigLines(network, es))) == None
  {
    var rest := RouterPart(es) + FromServices(es);
    var d1 := Read(Blank, HeaderLines(network));
    ConfigInParts(network, es);
    TextReads(ConfigLines(network, es));
    ReadThen(Blank, HeaderLines(network), rest);
    ReadThen(d1, RouterPart(es), FromServices(es));
    BlocksFail(d1, es, k);
    BlocksAreWritten(es);
    FailureStays(Read(d1, RouterPart(es)), FromServices(es));
  }

  /** A hostname with a line break and no quote in it, which a route's constructor lets through, breaks
      its quoted rule. */
  lemma HostWithBreakIsRejected(network: Network, es: seq<Entry>, k: nat)
    requires k < |es| && !SingleLine(es[k].route.hostname) && '"' !in es[k].route.hostname
    ensures ReadText(Text(ConfigLines(network, es))) == None
  {
    BrokenEntryIsRejected(network, es, k);
  }

  /** A stack name and a hostname without a letter or digit of ASCII between them, which both constructors
      let through, leave an empty key: the router's name and its service are null. */
  lemma NamelessEntryIsRejected(network: Network, es: seq<Entry>, k: nat)
    requires k < |es| && !HasAlnum(es[k].stack.name) && !HasAlnum(es[k].route.hostname)
    ensures Key(es[k]) == "" && ReadText(Text(ConfigLines(network, es))) == None
  {
    KeyIsEmptyIff(es[k]);
    BrokenEntryIsRejected(network, es, k);
  }

  /** For instance a stack named `!` with a route for `?`. */
  lemma NamelessExample(network: Network) returns (e: Entry)
    ensures e == Entry(Stack("1", "!"), Route("1", "?", 80, true))
    ensures HostIsPlain(e.route.hostname) && NameIsPlain(e.stack.name)
    ensures Key(e) == "" && ReadText(Text(ConfigLines(network, [e]))) == None
  {
    e := Entry(Stack("1", "!"), Route("1", "?", 80, true));
    NamelessEntryIsRejected(network, [e], 0);
  }

  lemma BlocksAreWritten(es: seq<Entry>)
    requires es != []
    ensures RouterPart(es) == Blocks(es, RouterBlock)
  {
  }

  lemma OneBlock(e: Entry, block: Entry -> seq<string>)
    ensures Blocks([e], block) == block(e)
  {
    assert [e][..0] == [];
    assert [] + block(e) == block(e);
  }

  lemma {:induction false} UnquoteStops(v: string, rest: string)
    requires Unescaped(v) && rest != [] && rest[0] == ' ' && Ignorable(rest)
    ensures Unquote(v + "\"" + rest) == Some(v)
    decreases |v|
  {
    if v == [] {
      assert (v + "\"" + rest)[1..] == rest;
    } else {
      assert (v + "\"" + rest)[1..] == v[1..] + "\"" + rest;
      UnquoteStops(v[1..], rest);
      assert [v[0]] + v[1..] == v;
    }
  }

  /** A stack name that closes its quoted address and goes on as a comment. */
  predicate EndsInComment(name: string, address: string) {
    && NameIsPlain(address) && SingleLine(name)
    && |name| >= |address| + 3 && name[..|address|] == address && name[|address|..|address| + 3] == "\" #"
  }

  lemma CommentedName(name: string, a: string, port: string) returns (rest: string)
    requires EndsInComment(name, a)
    ensures name + ":" + port + "\"" == a + "\"" + rest
    ensures rest != [] && rest[0] == ' ' && Ignorable(rest)
  {
    rest := " #" + (name[|a| + 3..] + ":" + port + "\"");
    assert name == a + "\" #" + name[|a| + 3..];
    assert rest[1..][0] == '#';
  }

  lemma CommentedUrlReads(e: Entry, a: string) returns (w: string)
    requires EndsInComment(e.stack.name, a)
    ensures UrlLine(Address(e)) == URL_START + w && UrlToken(w) == Url(a)
  {
    var rest := CommentedName(e.stack.name, a, PortText(e.route.port));
    var v := "http://" + a;
    w := v + "\"" + rest;
    assert Address(e) + "\"" == a + "\"" + rest;
    assert UrlLine(Address(e)) == URL_START + ("http://" + (Address(e) + "\""));
    PlainInside("http://", a, "");
    assert v + "" == v;
    UnquoteStops(v, rest);
    assert v[7..] == a;
  }

  lemma CommentedUrlIsSingle(e: Entry)
    requires SingleLine(e.stack.name)
    ensures SingleLine(UrlLine(Address(e)))
  {
    PortIsPlain(e.route.port);
    assert SingleLine(URL);
    assert SingleLine(Address(e));
  }

  lemma CommentedServiceReads(d: Doc, e: Entry, a: string)
    requires d.Doc? && d.section.Services? && d.config.services == [] && IsNamed(e) && EndsInComment(e.stack.name, a)
    ensures Read(d, ServiceBlock(e)) == WithServices(d, [Backend(Key(e), Some(a))])
  {
    var w := CommentedUrlReads(e, a);
    ServiceBlockStarts(d, e);
    TokenizeUrl(w);
    CommentedUrlIsSingle(e);
    ReadSingle(WithServices(d, [] + [Backend(Key(e), None)]), UrlLine(Address(e)));
    AddressIsSet(d, [], Key(e), a);
  }

  function CommentedConfig(e: Entry, a: string): Config {
    Config(RoutersOf([e]), [Backend(Key(e), Some(a))], StripNames([e]))
  }

  lemma CommentedConfigIsClosed(e: Entry, a: string)
    requires EndsInComment(e.stack.name, a)
    ensures Unambiguous(CommentedConfig(e, a)) && Closed(CommentedConfig(e, a))
    ensures CommentedConfig(e, a) != ConfigOf([e])
  {
    UnambiguousIff([e]);
    MeantIsClosed([e]);
    assert |Address(e)| > |a|;
    assert BackendsOf([e])[0].address == Some(Address(e));
  }

  lemma CommentedLinesRead(network: Network, e: Entry, a: string)
    requires NetworkIsComment(network) && RouterIsPlain(e) && EndsInComment(e.stack.name, a)
    ensures Read(Blank, ConfigLines(network, [e])) == Doc(Middlewares, CommentedConfig(e, a))
  {
    RoutersReadFirst(network, [e]);
    CommentedRest(WithRouters(Blank.(section := Routers), RoutersOf([e])), e, a);
  }

  lemma RoutersReadFirst(network: Network, es: seq<Entry>)
    requires NetworkIsComment(network) && RoutersArePlain(es)
    ensures Read(Blank, ConfigLines(network, es))
            == Read(WithRouters(Blank.(section := Routers), RoutersOf(es)), FromServices(es))
  {
    var d := Blank.(section := Routers);
    ConfigInParts(network, es);
    ReadThen(Blank, HeaderLines(network), RouterPart(es) + FromServices(es));
    HeaderReads(network);
    ReadThen(d, RouterPart(es), FromServices(es));
    RouterPartReads(d, es);
    RoutersRead(d, es);
  }

  /** Being closed alone does not make a config the one meant: such a name still reads as a closed config,
      with a shorter address. */
  lemma ClosedIsNotEnough(network: Network, e: Entry, a: string)
    requires NetworkIsComment(network) && RouterIsPlain(e) && EndsInComment(e.stack.name, a)
    ensures var c := ReadText(Text(ConfigLines(network, [e])));
            c.Some? && Closed(c.value) && c != Some(ConfigOf([e])) && c.value.services == [Backend(Key(e), Some(a))]
  {
    CommentedLinesRead(network, e, a);
    CommentedConfigIsClosed(e, a);
    TextReadsAs(ConfigLines(network, [e]), CommentedConfig(e, a));
  }

  lemma TextReadsAs(written: seq<string>, c: Config)
    requires Read(Blank, written) == Doc(Middlewares, c) && Unambiguous(c)
    ensures ReadText(Text(written)) == Some(c)
  {
    TextReads(written);
  }

  lemma CommentedRest(d: Doc, e: Entry, a: string)
    requires d.Doc? && d.section.Routers? && d.config.services == [] && d.config.middlewares == []
    requires IsNamed(e) && EndsInComment(e.stack.name, a)
    ensures Read(d, FromServices([e]))
            == Doc(Middlewares, Config(d.config.routers, [Backend(Key(e), Some(a))], StripNames([e])))
  {
    var d1, rest := d.(section := Services), TO_MIDDLEWARES + MiddlewarePart([e]);
    ReadThen(d, TO_SERVICES, ServicePart([e]) + rest);
    ToServicesReads(d);
    ReadThen(d1, ServicePart([e]), rest);
    ServicePartReads(d1, [e]);
    OneBlock(e, ServiceBlock);
    CommentedServiceReads(d1, e, a);
    FromMiddlewaresReads(WithServices(d1, [Backend(Key(e), Some(a))]), [e]);
  }
}
