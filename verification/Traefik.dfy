/** The Traefik file provider config (internal/modules/docker/domain/traefik_config.go): the label
    sanitizer, and the generator whose three loops over stacks and routes write routers, services and
    middlewares.

    The string builder is the list of lines written so far. */
module Traefik {
  import Subnet

  datatype Network = Network(name: string, subnet: string)

  datatype Stack = Stack(id: string, name: string)

  datatype Route = Route(stackId: string, hostname: string, port: int, stripPrefix: bool)

  // ---------------------------------------------------------------- labels

  predicate IsAlnum(c: char) {
    'a' <= c <= 'z' || 'A' <= c <= 'Z' || '0' <= c <= '9'
  }

  function Hyphened(s: string): (r: string)
    ensures |r| == |s|
  {
    seq(|s|, k requires 0 <= k < |s| => if IsAlnum(s[k]) then s[k] else '-')
  }

  function TrimStart(s: string): string {
    if s != [] && s[0] == '-' then TrimStart(s[1..]) else s
  }

  function TrimEnd(s: string): string {
    if s != [] && s[|s| - 1] == '-' then TrimEnd(s[..|s| - 1]) else s
  }

  function Label(s: string): string {
    TrimEnd(TrimStart(Hyphened(s)))
  }

  method SanitizeLabel(s: string) returns (r: string)
    ensures r == Label(s)
  {
    var out := [];
    for k := 0 to |s|
      invariant out == Hyphened(s)[..k]
    {
      var c := s[k];
      if 'a' <= c <= 'z' || 'A' <= c <= 'Z' || '0' <= c <= '9' || c == '-' {
        out := out + [c];
      } else {
        out := out + ['-'];
      }
    }
    assert Hyphened(s)[..|s|] == Hyphened(s);
    r := TrimEnd(TrimStart(out));
  }

  /** Letters, digits and inner hyphens only. */
  predicate IsLabel(s: string) {
    && (forall k :: 0 <= k < |s| ==> IsAlnum(s[k]) || s[k] == '-')
    && (s != [] ==> s[0] != '-' && s[|s| - 1] != '-')
  }

  /** The letters and digits of a text, in order. */
  function Alnums(s: string): string {
    if s == [] then [] else (if IsAlnum(s[0]) then [s[0]] else []) + Alnums(s[1..])
  }

  lemma {:induction false} TrimStartDrops(s: string) returns (n: nat)
    ensures n <= |s| && TrimStart(s) == s[n..]
    ensures forall k :: 0 <= k < n ==> s[k] == '-'
    ensures n < |s| ==> s[n] != '-'
  {
    n := 0;
    if s != [] && s[0] == '-' {
      var m := TrimStartDrops(s[1..]);
      n := m + 1;
      assert s[1..][m..] == s[n..];
      assert forall k :: 0 < k < n ==> s[k] == s[1..][k - 1];
      assert n < |s| ==> s[n] == s[1..][m];
    }
  }

  lemma {:induction false} TrimEndKeeps(s: string) returns (n: nat)
    ensures n <= |s| && TrimEnd(s) == s[..n]
    ensures forall k :: n <= k < |s| ==> s[k] == '-'
    ensures n > 0 ==> s[n - 1] != '-'
  {
    n := |s|;
    if s != [] && s[|s| - 1] == '-' {
      n := TrimEndKeeps(s[..|s| - 1]);
      assert s[..|s| - 1][..n] == s[..n];
    }
  }

  /** s[lo..hi] runs from the first letter or digit of s to the last. */
  predicate IsCore(s: string, lo: nat, hi: nat) {
    && lo <= hi <= |s|
    && (forall k :: 0 <= k < |s| && !(lo <= k < hi) ==> !IsAlnum(s[k]))
    && (lo < hi ==> IsAlnum(s[lo]) && IsAlnum(s[hi - 1]))
  }

  lemma HyphenedSlice(s: string, lo: nat, hi: nat)
    requires lo <= hi <= |s|
    ensures Hyphened(s)[lo..hi] == Hyphened(s[lo..hi])
  {
  }

  /** A label is the core of its text with everything but letters and digits turned into hyphens. */
  lemma LabelIsStretch(s: string) returns (lo: nat, hi: nat)
    ensures IsCore(s, lo, hi) && Label(s) == Hyphened(s[lo..hi])
  {
    var h := Hyphened(s);
    lo := TrimStartDrops(h);
    var n := TrimEndKeeps(h[lo..]);
    hi := lo + n;
    assert h[lo..][..n] == h[lo..hi];
    HyphenedSlice(s, lo, hi);
    forall k | 0 <= k < |s| && !(lo <= k < hi) ensures !IsAlnum(s[k]) {
      assert h[k] == '-' by {
        if k >= hi { assert h[k] == h[lo..][k - lo]; }
      }
    }
    if lo < hi { assert h[hi - 1] == h[lo..][n - 1]; }
  }

  /** Whatever the text, its label is clean; and it is empty exactly when the text has no letter and no
      digit. */
  lemma LabelIsClean(s: string)
    ensures IsLabel(Label(s))
    ensures Label(s) == "" <==> forall k :: 0 <= k < |s| ==> !IsAlnum(s[k])
  {
    var lo, hi := LabelIsStretch(s);
  }

  /** Sanitizing changes exactly the texts that are not labels, so doing it twice changes nothing more. */
  lemma LabelIsIdempotent(s: string)
    ensures Label(Label(s)) == Label(s)
    ensures Label(s) == s <==> IsLabel(s)
  {
    LabelIsClean(s);
    LabelFixes(Label(s));
    if IsLabel(s) { LabelFixes(s); }
  }

  lemma LabelFixes(s: string)
    requires IsLabel(s)
    ensures Label(s) == s
  {
    assert Hyphened(s) == s;
  }

  lemma TailOfAppend(s: string, t: string)
    requires s != []
    ensures (s + t)[0] == s[0] && (s + t)[1..] == s[1..] + t
  {
  }

  lemma {:induction false} AlnumsAppend(s: string, t: string)
    ensures Alnums(s + t) == Alnums(s) + Alnums(t)
  {
    if s == [] {
      assert s + t == t;
    } else {
      AlnumsAppend(s[1..], t);
      TailOfAppend(s, t);
    }
  }

  lemma {:induction false} NoAlnums(s: string)
    requires forall k :: 0 <= k < |s| ==> !IsAlnum(s[k])
    ensures Alnums(s) == ""
  {
    if s != [] { NoAlnums(s[1..]); }
  }

  lemma {:induction false} HyphenedAlnums(s: string)
    ensures Alnums(Hyphened(s)) == Alnums(s)
  {
    if s != [] {
      assert Hyphened(s)[1..] == Hyphened(s[1..]);
      HyphenedAlnums(s[1..]);
    }
  }

  /** No letter or digit is lost or moved. */
  lemma LabelKeepsAlnums(s: string)
    ensures Alnums(Label(s)) == Alnums(s)
  {
    var lo, hi := LabelIsStretch(s);
    assert s == s[..lo] + s[lo..hi] + s[hi..];
    AlnumsAppend(s[..lo] + s[lo..hi], s[hi..]);
    AlnumsAppend(s[..lo], s[lo..hi]);
    NoAlnums(s[..lo]);
    NoAlnums(s[hi..]);
    HyphenedAlnums(s[lo..hi]);
  }

  predicate SameShape(c: string, d: string) {
    && |c| == |d|
    && forall k :: 0 <= k < |c| && (IsAlnum(c[k]) || IsAlnum(d[k])) ==> c[k] == d[k]
  }

  lemma HyphenedAgreeIff(c: string, d: string)
    ensures Hyphened(c) == Hyphened(d) <==> SameShape(c, d)
  {
    assert forall k :: 0 <= k < |c| ==> Hyphened(c)[k] == if IsAlnum(c[k]) then c[k] else '-';
    assert forall k :: 0 <= k < |d| ==> Hyphened(d)[k] == if IsAlnum(d[k]) then d[k] else '-';
  }

  /** Two texts get the same label exactly when their cores differ only in characters that are neither
      letters nor digits. */
  lemma LabelsAgreeIff(s: string, lo: nat, hi: nat, t: string, from: nat, to: nat)
    requires IsCore(s, lo, hi) && IsCore(t, from, to)
    ensures Label(s) == Label(t) <==> SameShape(s[lo..hi], t[from..to])
  {
    CoreIsLabel(s, lo, hi);
    CoreIsLabel(t, from, to);
    HyphenedAgreeIff(s[lo..hi], t[from..to]);
  }

  lemma CoreIsLabel(s: string, lo: nat, hi: nat)
    requires IsCore(s, lo, hi)
    ensures Label(s) == Hyphened(s[lo..hi])
  {
    var a, b := LabelIsStretch(s);
    if lo < hi || a < b {
      assert a <= lo < b || a == b || lo == hi;
      assert lo == a && hi == b;
    }
  }

  // ---------------------------------------------------------------- the routes of the listed stacks

  datatype Entry = Entry(stack: Stack, route: Route)

  function RoutesOf(routes: seq<Route>, stackId: string): seq<Route> {
    if routes == [] then []
    else
      var n := |routes| - 1;
      RoutesOf(routes[..n], stackId) + if routes[n].stackId == stackId then [routes[n]] else []
  }

  function Paired(stack: Stack, routes: seq<Route>): (r: seq<Entry>)
    ensures |r| == |routes|
  {
    seq(|routes|, k requires 0 <= k < |routes| => Entry(stack, routes[k]))
  }

  /** Stack by stack, the routes of each in their given order. */
  function Listed(stacks: seq<Stack>, routes: seq<Route>): seq<Entry> {
    if stacks == [] then []
    else
      var n := |stacks| - 1;
      Listed(stacks[..n], routes) + Paired(stacks[n], RoutesOf(routes, stacks[n].id))
  }

  function Unpaired(es: seq<Entry>): (r: seq<Route>)
    ensures |r| == |es|
  {
    seq(|es|, k requires 0 <= k < |es| => es[k].route)
  }

  function StackCount(stacks: seq<Stack>, id: string): nat {
    if stacks == [] then 0
    else StackCount(stacks[..|stacks| - 1], id) + if stacks[|stacks| - 1].id == id then 1 else 0
  }

  lemma OneMoreCounts(routes: seq<Route>, last: Route, r: Route)
    ensures multiset(routes + [last])[r] == multiset(routes)[r] + if last == r then 1 else 0
  {
  }

  lemma {:induction false} RoutesOfCounts(routes: seq<Route>, id: string, r: Route)
    ensures multiset(RoutesOf(routes, id))[r] == if r.stackId == id then multiset(routes)[r] else 0
  {
    if routes != [] {
      var n := |routes| - 1;
      var own := RoutesOf(routes[..n], id);
      RoutesOfCounts(routes[..n], id, r);
      assert multiset(routes)[r] == multiset(routes[..n])[r] + if routes[n] == r then 1 else 0 by {
        OneMoreCounts(routes[..n], routes[n], r);
        assert routes == routes[..n] + [routes[n]];
      }
      if routes[n].stackId == id {
        OneMoreCounts(own, routes[n], r);
        assert RoutesOf(routes, id) == own + [routes[n]];
      } else {
        assert RoutesOf(routes, id) == own;
      }
    }
  }

  /** How often a route is visited. */
  function Visits(stacks: seq<Stack>, routes: seq<Route>, r: Route): nat {
    multiset(Unpaired(Listed(stacks, routes)))[r]
  }

  lemma UnpairedGrows(es: seq<Entry>, stack: Stack, own: seq<Route>, r: Route)
    ensures multiset(Unpaired(es + Paired(stack, own)))[r] == multiset(Unpaired(es))[r] + multiset(own)[r]
  {
    assert Unpaired(es + Paired(stack, own)) == Unpaired(es) + own;
  }

  lemma VisitsOneMore(stacks: seq<Stack>, routes: seq<Route>, r: Route)
    requires stacks != []
    ensures var n := |stacks| - 1;
            Visits(stacks, routes, r)
            == Visits(stacks[..n], routes, r) + if stacks[n].id == r.stackId then multiset(routes)[r] else 0
  {
    var n := |stacks| - 1;
    RoutesOfCounts(routes, stacks[n].id, r);
    UnpairedGrows(Listed(stacks[..n], routes), stacks[n], RoutesOf(routes, stacks[n].id), r);
  }

  lemma TimesOneMore(count: nat, m: nat, hit: bool)
    ensures (count + if hit then 1 else 0) * m == count * m + if hit then m else 0
  {
  }

  /** A route is written once for each listing of its stack: exactly once when the stack is listed
      once, and never when it is not listed. */
  lemma {:induction false} EntriesPerRoute(stacks: seq<Stack>, routes: seq<Route>, r: Route)
    ensures Visits(stacks, routes, r) == StackCount(stacks, r.stackId) * multiset(routes)[r]
  {
    var m: nat := multiset(routes)[r];
    if stacks == [] {
      assert Unpaired(Listed(stacks, routes)) == [];
    } else {
      var n := |stacks| - 1;
      EntriesPerRoute(stacks[..n], routes, r);
      VisitsOneMore(stacks, routes, r);
      TimesOneMore(StackCount(stacks[..n], r.stackId), m, stacks[n].id == r.stackId);
    }
  }

  lemma {:induction false} RoutesOfMembers(routes: seq<Route>, id: string)
    ensures forall r :: r in RoutesOf(routes, id) <==> r in routes && r.stackId == id
  {
    if routes != [] {
      var n := |routes| - 1;
      RoutesOfMembers(routes[..n], id);
      assert routes == routes[..n] + [routes[n]];
    }
  }

  /** Every entry pairs a listed stack with one of its own routes, and every such pair is there. */
  lemma {:induction false} ListedMembers(stacks: seq<Stack>, routes: seq<Route>)
    ensures forall e :: e in Listed(stacks, routes)
                        <==> e.stack in stacks && e.route in routes && e.route.stackId == e.stack.id
  {
    if stacks != [] {
      var n := |stacks| - 1;
      var stack := stacks[n];
      ListedMembers(stacks[..n], routes);
      RoutesOfMembers(routes, stack.id);
      assert stacks == stacks[..n] + [stack];
      var own := RoutesOf(routes, stack.id);
      forall e ensures e in Paired(stack, own) <==> e.stack == stack && e.route in own {
        if e.stack == stack && e.route in own {
          var k :| 0 <= k < |own| && own[k] == e.route;
          assert Paired(stack, own)[k] == e;
        }
      }
    }
  }

  ghost predicate Rising(at: seq<nat>) {
    forall j, k :: 0 <= j < k < |at| ==> at[j] < at[k]
  }

  /** The routes of a stack are those that name it, in the order given. */
  lemma {:induction false} RoutesOfInOrder(routes: seq<Route>, id: string) returns (at: seq<nat>)
    ensures Rising(at) && forall j: nat :: j in at <==> j < |routes| && routes[j].stackId == id
    ensures |RoutesOf(routes, id)| == |at|
    ensures forall k :: 0 <= k < |at| ==> at[k] < |routes| && RoutesOf(routes, id)[k] == routes[at[k]]
  {
    at := [];
    if routes != [] {
      var n := |routes| - 1;
      at := RoutesOfInOrder(routes[..n], id);
      assert forall k :: 0 <= k < |at| ==> at[k] in at;
      if routes[n].stackId == id { at := at + [n]; }
    }
  }

  /** A position of the nested loops. */
  datatype Visit = Visit(stack: nat, route: nat)

  predicate Earlier(a: Visit, b: Visit) {
    a.stack < b.stack || (a.stack == b.stack && a.route < b.route)
  }

  ghost predicate InOrder(at: seq<Visit>) {
    forall j, k :: 0 <= j < k < |at| ==> Earlier(at[j], at[k])
  }

  predicate IsVisit(stacks: seq<Stack>, routes: seq<Route>, v: Visit) {
    v.stack < |stacks| && v.route < |routes| && routes[v.route].stackId == stacks[v.stack].id
  }

  /** The k-th entry is the pair at the k-th visit. */
  ghost predicate PairsAt(es: seq<Entry>, stacks: seq<Stack>, routes: seq<Route>, at: seq<Visit>) {
    |es| == |at| && forall k :: 0 <= k < |at| ==> PairAt(es[k], stacks, routes, at[k])
  }

  predicate PairAt(e: Entry, stacks: seq<Stack>, routes: seq<Route>, v: Visit) {
    v.stack < |stacks| && v.route < |routes| && e == Entry(stacks[v.stack], routes[v.route])
  }

  /** The entries are the pairs of a stack and one of its own routes, stack by stack and within a stack route
      by route, in the orders given. */
  lemma {:induction false} ListedInOrder(stacks: seq<Stack>, routes: seq<Route>) returns (at: seq<Visit>)
    ensures InOrder(at) && forall v :: v in at <==> IsVisit(stacks, routes, v)
    ensures PairsAt(Listed(stacks, routes), stacks, routes, at)
  {
    at := [];
    if stacks != [] {
      var n := |stacks| - 1;
      var before := ListedInOrder(stacks[..n], routes);
      var own := RoutesOfInOrder(routes, stacks[n].id);
      var last := seq(|own|, k requires 0 <= k < |own| => Visit(n, own[k]));
      at := before + last;
      VisitsOfStack(stacks, routes, own, last);
      VisitsJoin(stacks, routes, before, last);
      PairsOfFewer(Listed(stacks[..n], routes), stacks, routes, before);
      PairsJoin(Listed(stacks[..n], routes), Paired(stacks[n], RoutesOf(routes, stacks[n].id)), stacks, routes, before, last);
    }
  }

  lemma VisitsOfStack(stacks: seq<Stack>, routes: seq<Route>, own: seq<nat>, last: seq<Visit>)
    requires stacks != [] && |last| == |own| && forall k :: 0 <= k < |own| ==> last[k] == Visit(|stacks| - 1, own[k])
    requires Rising(own) && forall j: nat :: j in own <==> j < |routes| && routes[j].stackId == stacks[|stacks| - 1].id
    ensures InOrder(last) && forall v :: v in last <==> v.stack == |stacks| - 1 && IsVisit(stacks, routes, v)
  {
    forall v: Visit ensures v in last <==> v.stack == |stacks| - 1 && IsVisit(stacks, routes, v) {
      if v in last {
        var k :| 0 <= k < |last| && last[k] == v;
        assert own[k] in own;
      }
      if v.stack == |stacks| - 1 && IsVisit(stacks, routes, v) {
        var k :| 0 <= k < |own| && own[k] == v.route;
        assert last[k] == v;
      }
    }
  }

  lemma VisitsJoin(stacks: seq<Stack>, routes: seq<Route>, before: seq<Visit>, last: seq<Visit>)
    requires stacks != [] && InOrder(before) && InOrder(last)
    requires forall v :: v in before <==> IsVisit(stacks[..|stacks| - 1], routes, v)
    requires forall v :: v in last <==> v.stack == |stacks| - 1 && IsVisit(stacks, routes, v)
    ensures InOrder(before + last) && forall v :: v in before + last <==> IsVisit(stacks, routes, v)
  {
    var n, at := |stacks| - 1, before + last;
    forall v ensures v in at <==> IsVisit(stacks, routes, v) {
      assert v in at <==> v in before || v in last;
    }
    forall j, k | 0 <= j < k < |at| ensures Earlier(at[j], at[k]) {
      if j < |before| <= k { assert at[j] in before && at[k] in last; }
    }
  }

  lemma PairsJoin(es: seq<Entry>, more: seq<Entry>, stacks: seq<Stack>, routes: seq<Route>, at: seq<Visit>, last: seq<Visit>)
    requires PairsAt(es, stacks, routes, at) && PairsAt(more, stacks, routes, last)
    ensures PairsAt(es + more, stacks, routes, at + last)
  {
    forall k | 0 <= k < |at + last| ensures PairAt((es + more)[k], stacks, routes, (at + last)[k]) {
      if k < |at| {
        assert PairAt(es[k], stacks, routes, at[k]);
      } else {
        assert PairAt(more[k - |at|], stacks, routes, last[k - |at|]);
      }
    }
  }

  lemma PairsOfFewer(es: seq<Entry>, stacks: seq<Stack>, routes: seq<Route>, at: seq<Visit>)
    requires stacks != [] && PairsAt(es, stacks[..|stacks| - 1], routes, at)
    ensures PairsAt(es, stacks, routes, at)
  {
    forall k | 0 <= k < |at| ensures PairAt(es[k], stacks, routes, at[k]) {
      assert PairAt(es[k], stacks[..|stacks| - 1], routes, at[k]);
    }
  }

  // ---------------------------------------------------------------- the lines written

  function Key(e: Entry): string {
    Label(e.stack.name + "-" + e.route.hostname)
  }

  function PortText(port: int): string {
    if port < 0 then "-" + Subnet.Decimal(-port) else Subnet.Decimal(port)
  }

  function Address(e: Entry): string {
    e.stack.name + ":" + PortText(e.route.port)
  }

  const RULE := "      rule: \"Host(`"
  const SERVICE := "      service: "
  const MIDDLEWARES := "      middlewares: ["
  const URL := "          - url: \"http://"
  const BALANCER := "      loadBalancer:"
  const SERVERS := "        servers:"
  const STRIP_PREFIX := "      stripPrefix:"
  const PREFIXES := "        prefixes: [\"/\"]"
  const NO_ROUTES := "    {} # no routes defined"
  const NO_SERVICES := "    {} # no services defined"
  const NO_MIDDLEWARES := "    {} # no middlewares defined"

  function KeyLine(key: string): string { "    " + key + ":" }

  function RuleLine(hostname: string): string { RULE + hostname + "`)\"" }

  function ServiceLine(key: string): string { SERVICE + key }

  function MiddlewareLine(name: string): string { MIDDLEWARES + name + "]" }

  function UrlLine(address: string): string { URL + address + "\"" }

  function HeaderLines(network: Network): seq<string> {
    ["# Generated by VVS \U{2014} do not edit manually",
     "# Network: " + network.name + " (" + network.subnet + ")", "", "http:", "  routers:"]
  }

  function RouterBlock(e: Entry): seq<string> {
    [KeyLine(Key(e)), RuleLine(e.route.hostname), ServiceLine(Key(e))]
    + if e.route.stripPrefix then [MiddlewareLine(Key(e) + "-strip")] else []
  }

  function ServiceBlock(e: Entry): seq<string> {
    [KeyLine(Key(e)), BALANCER, SERVERS, UrlLine(Address(e))]
  }

  function MiddlewareBlock(e: Entry): seq<string> {
    if e.route.stripPrefix then [KeyLine(Key(e) + "-strip"), STRIP_PREFIX, PREFIXES] else []
  }

  function Blocks(es: seq<Entry>, block: Entry -> seq<string>): seq<string> {
    if es == [] then [] else Blocks(es[..|es| - 1], block) + block(es[|es| - 1])
  }

  function OrElse(lines: seq<string>, placeholder: string): seq<string> {
    if lines == [] then [placeholder] else lines
  }

  function ConfigLines(network: Network, es: seq<Entry>): seq<string> {
    HeaderLines(network) + OrElse(Blocks(es, RouterBlock), NO_ROUTES)
    + ["", "  services:"] + OrElse(Blocks(es, ServiceBlock), NO_SERVICES)
    + ["", "  middlewares:"] + OrElse(Blocks(es, MiddlewareBlock), NO_MIDDLEWARES)
  }

  /** The finished text: every line with its line feed. */
  function Text(lines: seq<string>): string {
    if lines == [] then "" else lines[0] + "\n" + Text(lines[1..])
  }

  predicate NothingStripped(es: seq<Entry>) {
    forall k :: 0 <= k < |es| ==> !es[k].route.stripPrefix
  }

  lemma {:induction false} NoMiddlewareBlocks(es: seq<Entry>)
    requires NothingStripped(es)
    ensures Blocks(es, MiddlewareBlock) == []
  {
    if es != [] { NoMiddlewareBlocks(es[..|es| - 1]); }
  }

  /** A section without entries holds an empty mapping, and nothing else does. */
  lemma EmptySections(es: seq<Entry>)
    ensures OrElse(Blocks(es, RouterBlock), NO_ROUTES) == ["    {} # no routes defined"] <==> es == []
    ensures OrElse(Blocks(es, ServiceBlock), NO_SERVICES) == ["    {} # no services defined"] <==> es == []
    ensures OrElse(Blocks(es, MiddlewareBlock), NO_MIDDLEWARES) == ["    {} # no middlewares defined"] <==> NothingStripped(es)
  {
    if NothingStripped(es) { NoMiddlewareBlocks(es); } else { SomeMiddlewareBlock(es); }
    if es != [] {
      assert |Blocks(es, RouterBlock)| >= |RouterBlock(es[|es| - 1])| >= 3;
      assert |Blocks(es, ServiceBlock)| >= |ServiceBlock(es[|es| - 1])| >= 3;
    }
  }

  lemma {:induction false} SomeMiddlewareBlock(es: seq<Entry>)
    requires !NothingStripped(es)
    ensures |Blocks(es, MiddlewareBlock)| >= 3
  {
    var n := |es| - 1;
    if !es[n].route.stripPrefix { SomeMiddlewareBlock(es[..n]); }
  }

  // ---------------------------------------------------------------- the generator

  ghost predicate IndexOf(byStack: map<string, seq<Route>>, routes: seq<Route>) {
    forall id :: RoutesOf(routes, id) == if id in byStack then byStack[id] else []
  }

  method IndexByStack(routes: seq<Route>) returns (byStack: map<string, seq<Route>>)
    ensures IndexOf(byStack, routes)
  {
    byStack := map[];
    for k := 0 to |routes|
      invariant IndexOf(byStack, routes[..k])
    {
      var r := routes[k];
      assert routes[..k + 1][..k] == routes[..k];
      byStack := byStack[r.stackId := (if r.stackId in byStack then byStack[r.stackId] else []) + [r]];
    }
    assert routes[..|routes|] == routes;
  }

  function RoutesUpTo(stacks: seq<Stack>, routes: seq<Route>, i: nat, j: nat): seq<Entry>
    requires i < |stacks| && j <= |RoutesOf(routes, stacks[i].id)|
  {
    Listed(stacks[..i], routes) + Paired(stacks[i], RoutesOf(routes, stacks[i].id)[..j])
  }

  /** How the entries visited grow: by one in the inner loop, and all of a stack's after it. */
  lemma VisitOne(stacks: seq<Stack>, routes: seq<Route>, i: nat, j: nat, block: Entry -> seq<string>)
    requires i < |stacks| && j < |RoutesOf(routes, stacks[i].id)|
    ensures var e := Entry(stacks[i], RoutesOf(routes, stacks[i].id)[j]);
            Blocks(RoutesUpTo(stacks, routes, i, j + 1), block) == Blocks(RoutesUpTo(stacks, routes, i, j), block) + block(e)
  {
    var own := RoutesOf(routes, stacks[i].id);
    assert RoutesUpTo(stacks, routes, i, j + 1) == RoutesUpTo(stacks, routes, i, j) + [Entry(stacks[i], own[j])];
    assert (RoutesUpTo(stacks, routes, i, j) + [Entry(stacks[i], own[j])])[..|RoutesUpTo(stacks, routes, i, j)|]
        == RoutesUpTo(stacks, routes, i, j);
  }

  lemma VisitStack(stacks: seq<Stack>, routes: seq<Route>, i: nat)
    requires i < |stacks|
    ensures RoutesUpTo(stacks, routes, i, 0) == Listed(stacks[..i], routes)
    ensures RoutesUpTo(stacks, routes, i, |RoutesOf(routes, stacks[i].id)|) == Listed(stacks[..i + 1], routes)
  {
    var own := RoutesOf(routes, stacks[i].id);
    assert own[..|own|] == own;
    assert stacks[..i + 1][..i] == stacks[..i] && stacks[..i + 1][i] == stacks[i];
  }

  method WriteRouter(stack: Stack, route: Route) returns (sb: seq<string>)
    ensures sb == RouterBlock(Entry(stack, route)) && sb != []
  {
    var name := SanitizeLabel(stack.name + "-" + route.hostname);
    sb := [KeyLine(name), RuleLine(route.hostname), ServiceLine(name)];
    if route.stripPrefix {
      sb := sb + [MiddlewareLine(name + "-strip")];
    }
  }

  method WriteRouters(stacks: seq<Stack>, byStack: map<string, seq<Route>>, ghost routes: seq<Route>)
    returns (sb: seq<string>)
    requires IndexOf(byStack, routes)
    ensures sb == OrElse(Blocks(Listed(stacks, routes), RouterBlock), NO_ROUTES)
  {
    sb := [];
    var hasRouters := false;
    for i := 0 to |stacks|
      invariant sb == Blocks(Listed(stacks[..i], routes), RouterBlock)
      invariant hasRouters <==> sb != []
    {
      var stack := stacks[i];
      var own := if stack.id in byStack then byStack[stack.id] else [];
      assert own == RoutesOf(routes, stack.id);
      VisitStack(stacks, routes, i);
      for j := 0 to |own|
        invariant sb == Blocks(RoutesUpTo(stacks, routes, i, j), RouterBlock)
        invariant hasRouters <==> sb != []
      {
        VisitOne(stacks, routes, i, j, RouterBlock);
        hasRouters := true;
        var block := WriteRouter(stack, own[j]);
        sb := sb + block;
      }
    }
    assert stacks[..|stacks|] == stacks;
    if !hasRouters {
      sb := sb + [NO_ROUTES];
    }
  }

  method WriteServices(stacks: seq<Stack>, byStack: map<string, seq<Route>>, ghost routes: seq<Route>)
    returns (sb: seq<string>)
    requires IndexOf(byStack, routes)
    ensures sb == OrElse(Blocks(Listed(stacks, routes), ServiceBlock), NO_SERVICES)
  {
    sb := [];
    var hasServices := false;
    for i := 0 to |stacks|
      invariant sb == Blocks(Listed(stacks[..i], routes), ServiceBlock)
      invariant hasServices <==> sb != []
    {
      var stack := stacks[i];
      var own := if stack.id in byStack then byStack[stack.id] else [];
      assert own == RoutesOf(routes, stack.id);
      VisitStack(stacks, routes, i);
      for j := 0 to |own|
        invariant sb == Blocks(RoutesUpTo(stacks, routes, i, j), ServiceBlock)
        invariant hasServices <==> sb != []
      {
        VisitOne(stacks, routes, i, j, ServiceBlock);
        hasServices := true;
        var name := SanitizeLabel(stack.name + "-" + own[j].hostname);
        sb := sb + [KeyLine(name), BALANCER, SERVERS, UrlLine(stack.name + ":" + PortText(own[j].port))];
      }
    }
    assert stacks[..|stacks|] == stacks;
    if !hasServices {
      sb := sb + [NO_SERVICES];
    }
  }

  method WriteMiddlewares(stacks: seq<Stack>, byStack: map<string, seq<Route>>, ghost routes: seq<Route>)
    returns (sb: seq<string>)
    requires IndexOf(byStack, routes)
    ensures sb == OrElse(Blocks(Listed(stacks, routes), MiddlewareBlock), NO_MIDDLEWARES)
  {
    sb := [];
    var hasMiddleware := false;
    for i := 0 to |stacks|
      invariant sb == Blocks(Listed(stacks[..i], routes), MiddlewareBlock)
      invariant hasMiddleware <==> sb != []
    {
      var stack := stacks[i];
      var own := if stack.id in byStack then byStack[stack.id] else [];
      assert own == RoutesOf(routes, stack.id);
      VisitStack(stacks, routes, i);
      for j := 0 to |own|
        invariant sb == Blocks(RoutesUpTo(stacks, routes, i, j), MiddlewareBlock)
        invariant hasMiddleware <==> sb != []
      {
        VisitOne(stacks, routes, i, j, MiddlewareBlock);
        if !own[j].stripPrefix { continue; }
        hasMiddleware := true;
        var name := SanitizeLabel(stack.name + "-" + own[j].hostname);
        sb := sb + [KeyLine(name + "-strip"), STRIP_PREFIX, PREFIXES];
      }
    }
    assert stacks[..|stacks|] == stacks;
    if !hasMiddleware {
      sb := sb + [NO_MIDDLEWARES];
    }
  }

  method GenerateTraefikConfig(network: Network, stacks: seq<Stack>, routes: seq<Route>) returns (text: string)
    ensures text == Text(ConfigLines(network, Listed(stacks, routes)))
  {
    var byStack := IndexByStack(routes);
    var routers := WriteRouters(stacks, byStack, routes);
    var services := WriteServices(stacks, byStack, routes);
    var middlewares := WriteMiddlewares(stacks, byStack, routes);
    text := Text(HeaderLines(network) + routers + ["", "  services:"] + services + ["", "  middlewares:"] + middlewares);
  }

  // ---------------------------------------------------------------- keys

  /** Different hostnames of one stack can share a key. */
  lemma KeysCanCollide() returns (one: Entry, other: Entry)
    ensures one.stack == other.stack && one.route.hostname != other.route.hostname && Key(one) == Key(other)
  {
    var stack := Stack("1", "s");
    one, other := Entry(stack, Route("1", "a.b", 80, false)), Entry(stack, Route("1", "a-b", 80, false));
    LabelsAgreeIff("s" + "-" + "a.b", 0, 5, "s" + "-" + "a-b", 0, 5);
  }
}
