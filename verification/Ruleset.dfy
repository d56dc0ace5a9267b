/** The outbound ruleset: resolving every host, rendering the addresses, and the companion's copy
    (tesseract-proxy/internal/egress/egress.go; tesseract-proxy-egress/main.go). */
module Ruleset {
  import opened Options
  import opened Text
  import opened Ordering
  import Profile

  // ----- addresses -----

  /** net.IP: a four-byte address, the same address in sixteen bytes, or any other. */
  datatype IP = Four(quad: int) | Mapped(quad: int) | Six(groups: int)

  /** The library's printed forms of addresses. */
  datatype Notation = Notation(dotted: int -> string, colon: int -> string)

  function IPText(n: Notation, ip: IP): string {
    match ip
    case Four(q) => n.dotted(q)
    case Mapped(q) => n.dotted(q)
    case Six(g) => n.colon(g)
  }

  function To4(ip: IP): Option<IP> {
    if ip.Six? then None else Some(Four(ip.quad))
  }

  predicate Clean(s: string) {
    ',' !in s && ' ' !in s && '\n' !in s
  }

  /** The two printed forms never coincide, and contain no separator of the ruleset. */
  ghost predicate Faithful(n: Notation) {
    && (forall q, g :: n.dotted(q) != n.colon(g))
    && (forall q :: Clean(n.dotted(q)))
    && (forall g :: Clean(n.colon(g)))
  }

  ghost predicate IsDotted(n: Notation, text: string) {
    exists q :: n.dotted(q) == text
  }

  // ----- resolving -----

  type Resolver = string -> Option<seq<IP>>

  predicate Resolves(r: Resolver, h: string) {
    r(h).Some? && r(h).value != []
  }

  function Texts(n: Notation, ips: seq<IP>): (ts: seq<string>)
    ensures |ts| == |ips| && forall k :: 0 <= k < |ips| ==> ts[k] == IPText(n, ips[k])
  {
    seq(|ips|, k requires 0 <= k < |ips| => IPText(n, ips[k]))
  }

  /** The printed addresses of one host. */
  function HostTexts(n: Notation, r: Resolver, h: string): set<string> {
    if Resolves(r, h) then Elements(Texts(n, r(h).value)) else {}
  }

  /** The union of the addresses of all hosts. */
  function AllTexts(n: Notation, r: Resolver, hosts: seq<string>): set<string> {
    set h, t | h in hosts && t in HostTexts(n, r, h) :: t
  }

  /** `seen` maps each printed form to the last address that has it. */
  ghost predicate Records(n: Notation, seen: map<string, IP>, texts: set<string>) {
    && seen.Keys == texts
    && forall t :: t in seen ==> IPText(n, seen[t]) == t
  }

  method AddAddresses(n: Notation, seen: map<string, IP>, ips: seq<IP>) returns (out: map<string, IP>)
    requires Records(n, seen, seen.Keys)
    ensures Records(n, out, seen.Keys + Elements(Texts(n, ips)))
  {
    out := seen;
    for k := 0 to |ips|
      invariant Records(n, out, seen.Keys + Elements(Texts(n, ips)[..k]))
    {
      assert Texts(n, ips)[..k + 1] == Texts(n, ips)[..k] + [IPText(n, ips[k])];
      out := out[IPText(n, ips[k]) := ips[k]];
    }
    assert Texts(n, ips)[..|ips|] == Texts(n, ips);
  }

  /** Lists the keys in whatever order the map yields them. */
  method KeysOf(seen: map<string, IP>) returns (keys: seq<string>)
    ensures Distinct(keys) && Elements(keys) == seen.Keys
  {
    keys := [];
    var rest := seen.Keys;
    while rest != {}
      invariant Distinct(keys) && rest <= seen.Keys && Elements(keys) == seen.Keys - rest
    {
      var k :| k in rest;
      assert k !in Elements(keys) && Elements(keys + [k]) == Elements(keys) + {k};
      keys := keys + [k];
      rest := rest - {k};
    }
  }

  /** The addresses of the map, sorted by printed form. */
  method SortedByText(n: Notation, seen: map<string, IP>) returns (list: seq<IP>)
    requires Records(n, seen, seen.Keys)
    ensures StrictlySorted(Texts(n, list)) && Elements(Texts(n, list)) == seen.Keys
  {
    var keys := KeysOf(seen);
    SortDistinct(keys);
    keys := SortStrings(keys);
    list := [];
    for k := 0 to |keys|
      invariant |list| == k && forall j :: 0 <= j < k ==> IPText(n, list[j]) == keys[j]
    {
      assert keys[k] in Elements(keys);
      list := list + [seen[keys[k]]];
    }
    assert Texts(n, list) == keys;
  }

  /** Resolves every host or fails as a whole; the addresses come out sorted by printed form,
      one per printed form, and are exactly those of the hosts. */
  method ResolveAll(n: Notation, r: Resolver, hosts: seq<string>) returns (out: Option<seq<IP>>)
    ensures out.Some? <==> forall h :: h in hosts ==> Resolves(r, h)
    ensures out.Some? ==> StrictlySorted(Texts(n, out.value)) && Elements(Texts(n, out.value)) == AllTexts(n, r, hosts)
  {
    var seen: map<string, IP> := map[];
    for k := 0 to |hosts|
      invariant forall j :: 0 <= j < k ==> Resolves(r, hosts[j])
      invariant Records(n, seen, AllTexts(n, r, hosts[..k]))
    {
      var ips := r(hosts[k]);
      assert hosts[k] in hosts;
      if ips.None? || ips.value == [] {
        return None;
      }
      MoreTexts(n, r, hosts, k);
      seen := AddAddresses(n, seen, ips.value);
    }
    assert hosts[..|hosts|] == hosts;
    var list := SortedByText(n, seen);
    return Some(list);
  }

  lemma MoreTexts(n: Notation, r: Resolver, hosts: seq<string>, k: nat)
    requires k < |hosts|
    ensures AllTexts(n, r, hosts[..k + 1]) == AllTexts(n, r, hosts[..k]) + HostTexts(n, r, hosts[k])
  {
    assert hosts[..k + 1] == hosts[..k] + [hosts[k]];
  }

  // ----- rendering -----

  function Dotteds(n: Notation, ips: seq<IP>): seq<string> {
    if ips == [] then []
    else if To4(ips[0]).Some? then [IPText(n, To4(ips[0]).value)] + Dotteds(n, ips[1..])
    else Dotteds(n, ips[1..])
  }

  function Colons(n: Notation, ips: seq<IP>): seq<string> {
    if ips == [] then []
    else if To4(ips[0]).Some? then Colons(n, ips[1..])
    else [IPText(n, ips[0])] + Colons(n, ips[1..])
  }

  method SplitFamilies(n: Notation, ips: seq<IP>) returns (v4: seq<string>, v6: seq<string>)
    ensures v4 == Dotteds(n, ips) && v6 == Colons(n, ips)
  {
    v4, v6 := [], [];
    assert ips[0..] == ips;
    for k := 0 to |ips|
      invariant v4 + Dotteds(n, ips[k..]) == Dotteds(n, ips)
      invariant v6 + Colons(n, ips[k..]) == Colons(n, ips)
    {
      assert ips[k..][1..] == ips[k + 1..];
      var four := To4(ips[k]);
      if four.Some? {
        v4 := v4 + [IPText(n, four.value)];
      } else {
        v6 := v6 + [IPText(n, ips[k])];
      }
    }
  }

  /** Both family lists depend only on the printed forms. */
  lemma {:induction false} FamiliesByText(n: Notation, xs: seq<IP>, ys: seq<IP>)
    requires Faithful(n) && Texts(n, xs) == Texts(n, ys)
    ensures Dotteds(n, xs) == Dotteds(n, ys) && Colons(n, xs) == Colons(n, ys)
  {
    assert |xs| == |Texts(n, xs)| == |ys|;
    if xs != [] {
      assert IPText(n, xs[0]) == Texts(n, xs)[0] == IPText(n, ys[0]);
      assert Texts(n, xs[1..]) == Texts(n, xs)[1..] == Texts(n, ys[1..]);
      FamiliesByText(n, xs[1..], ys[1..]);
    }
  }

  /** The two families together are all addresses, and each is in its own notation. */
  lemma {:induction false} FamiliesCover(n: Notation, ips: seq<IP>)
    requires Faithful(n)
    ensures Elements(Dotteds(n, ips)) + Elements(Colons(n, ips)) == Elements(Texts(n, ips))
    ensures forall t :: t in Dotteds(n, ips) || t in Colons(n, ips) ==> Clean(t)
    ensures forall t :: t in Dotteds(n, ips) ==> IsDotted(n, t)
    ensures forall t :: t in Colons(n, ips) ==> !IsDotted(n, t)
  {
    if ips != [] {
      FamiliesCover(n, ips[1..]);
      assert Texts(n, ips) == [IPText(n, ips[0])] + Texts(n, ips[1..]);
      assert ips[0].Six? ==> Clean(n.colon(ips[0].groups));
      assert !ips[0].Six? ==> Clean(n.dotted(ips[0].quad));
    }
  }

  // The lines of the ruleset, each cut after its first words: what tells the lines apart stands there.
  const V4_RULE := "\t\ttcp dport " + "443 ip daddr { "
  const V6_RULE := "\t\ttcp dport " + "443 ip6 daddr { "
  const RULE_END := " } accept"

  function RuleLine(rule: string, list: seq<string>): seq<string> {
    if list == [] then [] else [rule + (JoinWith(list, ", ") + RULE_END)]
  }

  function HostLines(hosts: seq<string>): (ls: seq<string>)
    ensures |ls| == |hosts| && forall k :: 0 <= k < |hosts| ==> ls[k] == "#   " + hosts[k]
  {
    seq(|hosts|, k requires 0 <= k < |hosts| => "#   " + hosts[k])
  }

  const TITLE := "# Tesseract " + ("proxy egress ruleset " + "— generated, do not edit.")
  const HOSTS_TITLE := "# Allowed " + "broker hosts:"
  const TABLE := "table " + "inet tesseract_egress {"
  const OUTPUT := "\tchain " + "output {"
  const POLICY := "\t\ttype " + ("filter hook output " + "priority 0; policy drop;")
  const STATEFUL := "\t\tct state " + "established,related accept"
  const LOOPBACK := "\t\toif " + "lo accept"

  const TOP := [TITLE, HOSTS_TITLE]
  const CHAIN := [TABLE, OUTPUT, POLICY, STATEFUL, LOOPBACK]
  const BOTTOM := ["\t}", "}"]

  function RulesetLines(hosts: seq<string>, v4: seq<string>, v6: seq<string>): seq<string> {
    TOP + (HostLines(hosts) + (CHAIN + (RuleLine(V4_RULE, v4) + (RuleLine(V6_RULE, v6) + BOTTOM))))
  }

  /** Every line with its break. */
  function LinesText(ls: seq<string>): string {
    if ls == [] then "" else ls[0] + ("\n" + LinesText(ls[1..]))
  }

  function RulesetText(hosts: seq<string>, v4: seq<string>, v6: seq<string>): string {
    LinesText(RulesetLines(hosts, v4, v6))
  }

  lemma {:induction false} LinesTextAppend(xs: seq<string>, ys: seq<string>)
    ensures LinesText(xs + ys) == LinesText(xs) + LinesText(ys)
  {
    if xs == [] {
      assert xs + ys == ys;
      assert "" + LinesText(ys) == LinesText(ys);
    } else {
      LinesTextAppend(xs[1..], ys);
      assert (xs + ys)[1..] == xs[1..] + ys;
      Regroup("\n", LinesText(xs[1..]), LinesText(ys));
      Regroup(xs[0], "\n" + LinesText(xs[1..]), LinesText(ys));
    }
  }

  method WriteLines(sb: Builder, ls: seq<string>)
    modifies sb
    ensures sb.text == old(sb.text) + LinesText(ls)
  {
    assert ls[..0] == [];
    for k := 0 to |ls|
      invariant sb.text == old(sb.text) + LinesText(ls[..k])
    {
      assert ls[..k + 1] == ls[..k] + [ls[k]];
      LinesTextAppend(ls[..k], [ls[k]]);
      OneLine(ls[k]);
      Regroup(old(sb.text), LinesText(ls[..k]), ls[k] + "\n");
      sb.Write(ls[k] + "\n");
    }
    assert ls[..|ls|] == ls;
  }

  lemma OneLine(l: string)
    ensures LinesText([l]) == l + "\n"
  {
    assert LinesText([l]) == l + ("\n" + LinesText([]));
  }

  lemma RulesetTextParts(hosts: seq<string>, v4: seq<string>, v6: seq<string>)
    ensures RulesetText(hosts, v4, v6)
            == LinesText(TOP) + LinesText(HostLines(hosts)) + LinesText(CHAIN)
               + LinesText(RuleLine(V4_RULE, v4)) + LinesText(RuleLine(V6_RULE, v6)) + LinesText(BOTTOM)
  {
    hide *;
    var r4, r6 := RuleLine(V4_RULE, v4), RuleLine(V6_RULE, v6);
    RulesetUnfold(hosts, v4, v6);
    LinesTextAppend(TOP + HostLines(hosts) + CHAIN + r4 + r6, BOTTOM);
    LinesTextAppend(TOP + HostLines(hosts) + CHAIN + r4, r6);
    LinesTextAppend(TOP + HostLines(hosts) + CHAIN, r4);
    LinesTextAppend(TOP + HostLines(hosts), CHAIN);
    LinesTextAppend(TOP, HostLines(hosts));
  }

  lemma RulesetUnfold(hosts: seq<string>, v4: seq<string>, v6: seq<string>)
    ensures RulesetText(hosts, v4, v6)
            == LinesText(TOP + HostLines(hosts) + CHAIN + RuleLine(V4_RULE, v4) + RuleLine(V6_RULE, v6) + BOTTOM)
  {
    hide TOP, CHAIN, BOTTOM, RuleLine, HostLines, LinesText;
    var h, r4, r6 := HostLines(hosts), RuleLine(V4_RULE, v4), RuleLine(V6_RULE, v6);
    Regroup(TOP + h + CHAIN + r4, r6, BOTTOM);
    Regroup(TOP + h + CHAIN, r4, r6 + BOTTOM);
    Regroup(TOP + h, CHAIN, r4 + (r6 + BOTTOM));
    Regroup(TOP, h, CHAIN + (r4 + (r6 + BOTTOM)));
  }

  method WriteRule(sb: Builder, rule: string, list: seq<string>)
    modifies sb
    ensures sb.text == old(sb.text) + LinesText(RuleLine(rule, list))
  {
    if list != [] {
      WriteLines(sb, [rule + (JoinWith(list, ", ") + RULE_END)]);
    }
  }

  method Render(n: Notation, hosts: seq<string>, ips: seq<IP>) returns (text: string)
    ensures text == RulesetText(hosts, Dotteds(n, ips), Colons(n, ips))
  {
    hide *;
    var v4, v6 := SplitFamilies(n, ips);
    RulesetTextParts(hosts, v4, v6);
    var sb := new Builder();
    WriteLines(sb, TOP);
    assert sb.text == LinesText(TOP);
    WriteLines(sb, HostLines(hosts));
    WriteLines(sb, CHAIN);
    WriteRule(sb, V4_RULE, v4);
    WriteRule(sb, V6_RULE, v6);
    WriteLines(sb, BOTTOM);
    text := sb.text;
  }

  // ----- reading a ruleset -----

  function TrimBlank(s: string): string {
    if s != "" && s[0] == ' ' then s[1..] else s
  }

  /** The entries of a list joined by ", ". */
  function ReadList(s: string): (r: seq<string>)
    ensures |r| == |SplitOn(s, ',')|
    ensures forall k :: 0 <= k < |r| ==> r[k] == TrimBlank(SplitOn(s, ',')[k])
  {
    seq(|SplitOn(s, ',')|, k requires 0 <= k < |SplitOn(s, ',')| => TrimBlank(SplitOn(s, ',')[k]))
  }

  // What a reader of the kernel's rule language looks for. These are the reader's own words.
  const NFT_V4 := "\t\ttcp dport " + "443 ip daddr { "
  const NFT_V6 := "\t\ttcp dport " + "443 ip6 daddr { "
  const NFT_END := " } accept"
  const NFT_TABLE := "table " + "inet tesseract_egress {"
  const NFT_CHAIN := "\tchain " + "output {"
  const NFT_DROP := "\t\ttype " + ("filter hook output " + "priority 0; policy drop;")
  const NFT_STATEFUL := "\t\tct state " + "established,related accept"
  const NFT_LOOPBACK := "\t\toif " + "lo accept"

  lemma SameWords()
    ensures V4_RULE == NFT_V4 && V6_RULE == NFT_V6 && RULE_END == NFT_END
    ensures CHAIN == [NFT_TABLE, NFT_CHAIN, NFT_DROP, NFT_STATEFUL, NFT_LOOPBACK] && BOTTOM == ["\t}", "}"]
  {
  }

  predicate IsRule(rule: string, line: string) {
    rule <= line && |line| >= |rule| + |NFT_END| && line[|line| - |NFT_END|..] == NFT_END
  }

  function RuleEntries(rule: string, line: string): set<string>
    requires IsRule(rule, line)
  {
    Elements(ReadList(line[|rule|..|line| - |NFT_END|]))
  }

  /** The destination addresses one line lets through. */
  function LineAccepts(line: string): set<string> {
    if IsRule(NFT_V4, line) then RuleEntries(NFT_V4, line)
    else if IsRule(NFT_V6, line) then RuleEntries(NFT_V6, line)
    else {}
  }

  function LinesAccept(ls: seq<string>): set<string> {
    if ls == [] then {} else LineAccepts(ls[0]) + LinesAccept(ls[1..])
  }

  /** The destination addresses a ruleset text lets through. */
  function Accepted(text: string): set<string> {
    LinesAccept(SplitOn(text, '\n'))
  }

  function LinesHosts(ls: seq<string>): seq<string> {
    if ls == [] then []
    else if "#   " <= ls[0] then [ls[0][4..]] + LinesHosts(ls[1..])
    else LinesHosts(ls[1..])
  }

  /** The hosts a ruleset text names in its comment. */
  function NamedHosts(text: string): seq<string> {
    LinesHosts(SplitOn(text, '\n'))
  }

  predicate OneLiners(ls: seq<string>) {
    forall k :: 0 <= k < |ls| ==> '\n' !in ls[k]
  }

  lemma SplitLinesStep(l: string, rest: string, parts: seq<string>)
    requires '\n' !in l && SplitOn(rest, '\n') == parts
    ensures SplitOn(l + ("\n" + rest), '\n') == [l] + parts
  {
    hide SplitOn;
    SplitFirst(l, rest, '\n');
  }

  lemma {:induction false} SplitLinesText(ls: seq<string>)
    requires OneLiners(ls)
    ensures SplitOn(LinesText(ls), '\n') == ls + [""]
  {
    if ls == [] {
      assert SplitOn("", '\n') == [""];
    } else {
      hide SplitOn;
      SplitLinesText(ls[1..]);
      SplitLinesStep(ls[0], LinesText(ls[1..]), ls[1..] + [""]);
      Regroup([ls[0]], ls[1..], [""]);
      assert [ls[0]] + ls[1..] == ls;
    }
  }

  lemma {:induction false} LinesAcceptAppend(xs: seq<string>, ys: seq<string>)
    ensures LinesAccept(xs + ys) == LinesAccept(xs) + LinesAccept(ys)
    ensures LinesHosts(xs + ys) == LinesHosts(xs) + LinesHosts(ys)
  {
    hide LineAccepts;
    if xs == [] {
      assert xs + ys == ys;
    } else {
      assert (xs + ys)[1..] == xs[1..] + ys;
      LinesAcceptAppend(xs[1..], ys);
    }
  }

  /** A line that accepts nothing and names no host. */
  predicate Plain(line: string) {
    !IsRule(NFT_V4, line) && !IsRule(NFT_V6, line) && !("#   " <= line)
  }

  lemma {:induction false} FrameLines(ls: seq<string>)
    requires AllFrame(ls)
    ensures OneLiners(ls)
    ensures LinesAccept(ls) == {} && LinesHosts(ls) == []
  {
    if ls != [] {
      FrameLines(ls[1..]);
    }
  }

  lemma NoTabNoRule(line: string)
    requires line == "" || line[0] != '\t' || |line| < 4 || line[3] != 'c'
    ensures !IsRule(NFT_V4, line) && !IsRule(NFT_V6, line)
  {
    assert NFT_V4[0] == '\t' && NFT_V4[3] == 'c' && NFT_V6[0] == '\t' && NFT_V6[3] == 'c';
  }

  /** A line of the fixed frame: plain and without a break. */
  predicate Frame(line: string) {
    Plain(line) && '\n' !in line
  }

  predicate AllFrame(ls: seq<string>) {
    forall k :: 0 <= k < |ls| ==> Frame(ls[k])
  }

  lemma TitleIsFrame()
    ensures Frame(TITLE)
  {
    assert TITLE[0] == '#' && TITLE[2] == 'T';
    NoTabNoRule(TITLE);
  }

  lemma HostsTitleIsFrame()
    ensures Frame(HOSTS_TITLE)
  {
    assert HOSTS_TITLE[0] == '#' && HOSTS_TITLE[2] == 'A';
    NoTabNoRule(HOSTS_TITLE);
  }

  lemma TableIsFrame()
    ensures Frame(TABLE)
  {
    assert TABLE[0] == 't';
    NoTabNoRule(TABLE);
  }

  lemma OutputIsFrame()
    ensures Frame(OUTPUT)
  {
    assert OUTPUT[0] == '\t' && OUTPUT[3] == 'a';
    NoTabNoRule(OUTPUT);
  }

  lemma PolicyIsFrame()
    ensures Frame(POLICY)
  {
    assert POLICY[0] == '\t' && POLICY[3] == 'y';
    NoTabNoRule(POLICY);
  }

  lemma StatefulIsFrame()
    ensures Frame(STATEFUL)
  {
    assert STATEFUL[0] == '\t' && STATEFUL[3] == 't';
    NoTabNoRule(STATEFUL);
  }

  lemma LoopbackIsFrame()
    ensures Frame(LOOPBACK)
  {
    assert LOOPBACK[0] == '\t' && LOOPBACK[3] == 'i';
    NoTabNoRule(LOOPBACK);
  }

  lemma TopIsFrame()
    ensures AllFrame(TOP)
  {
    TitleIsFrame();
    HostsTitleIsFrame();
    hide Frame, TITLE, HOSTS_TITLE;
  }

  lemma ChainIsFrame()
    ensures AllFrame(CHAIN)
  {
    TableIsFrame();
    OutputIsFrame();
    PolicyIsFrame();
    StatefulIsFrame();
    LoopbackIsFrame();
    hide Frame, TABLE, OUTPUT, POLICY, STATEFUL, LOOPBACK;
  }

  lemma BottomIsFrame()
    ensures AllFrame(BOTTOM)
  {
    var x, y := BOTTOM[0], BOTTOM[1];
    assert Frame(x) by { NoTabNoRule(x); }
    assert Frame(y) by { NoTabNoRule(y); }
    hide Frame;
  }

  lemma {:induction false} HostLinesRead(hosts: seq<string>)
    ensures LinesAccept(HostLines(hosts)) == {} && LinesHosts(HostLines(hosts)) == hosts
    ensures OneLiners(hosts) ==> OneLiners(HostLines(hosts))
  {
    if hosts != [] {
      HostLinesRead(hosts[1..]);
      assert HostLines(hosts)[1..] == HostLines(hosts[1..]);
      var l := HostLines(hosts)[0];
      assert l == "#   " + hosts[0] && l[0] == '#' && l[4..] == hosts[0];
      NoTabNoRule(l);
      hide IsRule;
    }
  }

  lemma {:induction false} SplitJoined(p: string, list: seq<string>)
    requires ',' !in p && list != [] && forall k :: 0 <= k < |list| ==> Clean(list[k])
    ensures SplitOn(p + JoinWith(list, ", "), ',') == [p + list[0]] + Blanked(list[1..])
    decreases |list|
  {
    hide SplitOn, Blanked;
    if |list| == 1 {
      SplitFirst(p + list[0], "", ',');
      assert Blanked(list[1..]) == [] by { assert list[1..] == []; }
    } else {
      var tail := list[1..];
      SplitJoined(" ", tail);
      var rest := JoinWith(tail, ", ");
      Regroup(p, list[0], ", " + rest);
      Regroup(",", " ", rest);
      assert ", " == "," + " ";
      SplitFirst(p + list[0], " " + rest, ',');
      BlankedMore(tail);
    }
  }

  /** Entries after the first carry the blank of the separator. */
  function Blanked(list: seq<string>): (r: seq<string>)
    ensures |r| == |list| && forall k :: 0 <= k < |list| ==> r[k] == " " + list[k]
  {
    seq(|list|, k requires 0 <= k < |list| => " " + list[k])
  }

  lemma BlankedMore(list: seq<string>)
    requires list != []
    ensures Blanked(list) == [" " + list[0]] + Blanked(list[1..])
  {
  }

  lemma TrimJoined(entry: string)
    requires Clean(entry)
    ensures TrimBlank(entry) == entry && TrimBlank(" " + entry) == entry
  {
    assert (" " + entry)[1..] == entry;
  }

  lemma TrimBlanked(list: seq<string>)
    requires list != [] && forall k :: 0 <= k < |list| ==> Clean(list[k])
    ensures var parts := [list[0]] + Blanked(list[1..]);
            |parts| == |list| && forall k :: 0 <= k < |list| ==> TrimBlank(parts[k]) == list[k]
  {
    hide TrimBlank;
    var parts := [list[0]] + Blanked(list[1..]);
    forall k | 0 <= k < |list| ensures TrimBlank(parts[k]) == list[k] {
      TrimJoined(list[k]);
    }
  }

  lemma ReadJoined(list: seq<string>)
    requires list != [] && forall k :: 0 <= k < |list| ==> Clean(list[k])
    ensures ReadList(JoinWith(list, ", ")) == list
  {
    hide *;
    SplitJoined("", list);
    assert "" + JoinWith(list, ", ") == JoinWith(list, ", ") && "" + list[0] == list[0];
    TrimBlanked(list);
  }

  lemma RuleBody(rule: string, body: string)
    ensures var line := rule + (body + NFT_END);
            IsRule(rule, line) && line[|rule|..|line| - |NFT_END|] == body
  {
    var line := rule + (body + NFT_END);
    assert line[|line| - |NFT_END|..] == NFT_END;
  }

  /** One rule line with its list: what it accepts, and that it is one line and names no host. */
  lemma RuleRead(rule: string, list: seq<string>)
    requires (rule == NFT_V4 || rule == NFT_V6) && list != [] && forall k :: 0 <= k < |list| ==> Clean(list[k])
    ensures var line := rule + (JoinWith(list, ", ") + NFT_END);
            LineAccepts(line) == Elements(list) && '\n' !in line && !("#   " <= line)
  {
    hide *;
    var body := JoinWith(list, ", ");
    RuleShape(rule);
    JoinHasNoBreak(list);
    TabLine(rule, body, NFT_END);
    ReadJoined(list);
    RuleAccepts(rule, body, list);
  }

  lemma TabLine(start: string, body: string, end: string)
    requires start != "" && start[0] == '\t' && '\n' !in start && '\n' !in body && '\n' !in end
    ensures '\n' !in start + (body + end) && !("#   " <= start + (body + end))
  {
    var line := start + (body + end);
    assert line[0] == start[0] && "#   "[0] == '#';
  }

  lemma RuleAccepts(rule: string, body: string, list: seq<string>)
    requires (rule == NFT_V4 || rule == NFT_V6) && ReadList(body) == list
    ensures LineAccepts(rule + (body + NFT_END)) == Elements(list)
  {
    hide IsRule, ReadList, NFT_V4, NFT_V6, NFT_END;
    RuleBody(rule, body);
    OnlyOneFamily(rule, rule + (body + NFT_END));
  }

  lemma RuleLineRead(rule: string, list: seq<string>)
    requires (rule == NFT_V4 || rule == NFT_V6) && forall k :: 0 <= k < |list| ==> Clean(list[k])
    ensures LinesAccept(RuleLine(rule, list)) == Elements(list) && LinesHosts(RuleLine(rule, list)) == []
    ensures OneLiners(RuleLine(rule, list))
  {
    SameWords();
    hide LineAccepts, JoinWith, NFT_V4, NFT_V6, NFT_END, RULE_END;
    if list != [] {
      RuleRead(rule, list);
      var line := rule + (JoinWith(list, ", ") + RULE_END);
      assert LinesAccept([line]) == LineAccepts(line) + LinesAccept([]);
    }
  }

  lemma RuleShape(rule: string)
    requires rule == NFT_V4 || rule == NFT_V6
    ensures rule != "" && rule[0] == '\t' && '\n' !in rule && '\n' !in NFT_END
  {
  }

  lemma OnlyOneFamily(rule: string, line: string)
    requires rule <= line
    ensures rule == NFT_V6 ==> !IsRule(NFT_V4, line)
    ensures rule == NFT_V4 ==> !IsRule(NFT_V6, line)
  {
    assert NFT_V4[18] == ' ' && NFT_V6[18] == '6';
  }

  lemma {:induction false} JoinHasNoBreak(list: seq<string>)
    requires forall k :: 0 <= k < |list| ==> Clean(list[k])
    ensures '\n' !in JoinWith(list, ", ")
  {
    if |list| > 1 {
      JoinHasNoBreak(list[1..]);
    }
  }

  lemma OneLinersAppend(xs: seq<string>, ys: seq<string>)
    requires OneLiners(xs) && OneLiners(ys)
    ensures OneLiners(xs + ys)
  {
  }

  /** What can be read off the lines of a ruleset. */
  lemma RulesetLinesRead(hosts: seq<string>, v4: seq<string>, v6: seq<string>)
    requires OneLiners(hosts)
    requires (forall k :: 0 <= k < |v4| ==> Clean(v4[k])) && (forall k :: 0 <= k < |v6| ==> Clean(v6[k]))
    ensures OneLiners(RulesetLines(hosts, v4, v6))
    ensures LinesAccept(RulesetLines(hosts, v4, v6)) == Elements(v4) + Elements(v6)
    ensures LinesHosts(RulesetLines(hosts, v4, v6)) == hosts
  {
    TopIsFrame();
    ChainIsFrame();
    BottomIsFrame();
    FrameLines(TOP);
    FrameLines(CHAIN);
    FrameLines(BOTTOM);
    HostLinesRead(hosts);
    SameWords();
    RuleLineRead(V4_RULE, v4);
    RuleLineRead(V6_RULE, v6);
    hide TOP, CHAIN, BOTTOM, RuleLine, LinesAccept, LinesHosts, V4_RULE, V6_RULE, NFT_V4, NFT_V6, Clean, AllFrame, OneLiners;
    var h, r4, r6 := HostLines(hosts), RuleLine(V4_RULE, v4), RuleLine(V6_RULE, v6);
    LinesAcceptAppend(r6, BOTTOM);
    OneLinersAppend(r6, BOTTOM);
    LinesAcceptAppend(r4, r6 + BOTTOM);
    OneLinersAppend(r4, r6 + BOTTOM);
    LinesAcceptAppend(CHAIN, r4 + (r6 + BOTTOM));
    OneLinersAppend(CHAIN, r4 + (r6 + BOTTOM));
    LinesAcceptAppend(h, CHAIN + (r4 + (r6 + BOTTOM)));
    OneLinersAppend(h, CHAIN + (r4 + (r6 + BOTTOM)));
    LinesAcceptAppend(TOP, h + (CHAIN + (r4 + (r6 + BOTTOM))));
    OneLinersAppend(TOP, h + (CHAIN + (r4 + (r6 + BOTTOM))));
  }

  /** Read back, a ruleset text accepts exactly the listed addresses and names exactly the listed hosts. */
  lemma RulesetReadsBack(hosts: seq<string>, v4: seq<string>, v6: seq<string>)
    requires OneLiners(hosts)
    requires (forall k :: 0 <= k < |v4| ==> Clean(v4[k])) && (forall k :: 0 <= k < |v6| ==> Clean(v6[k]))
    ensures Accepted(RulesetText(hosts, v4, v6)) == Elements(v4) + Elements(v6)
    ensures NamedHosts(RulesetText(hosts, v4, v6)) == hosts
  {
    var ls := RulesetLines(hosts, v4, v6);
    RulesetLinesRead(hosts, v4, v6);
    EmptyLine();
    hide RulesetLines, LinesText, LinesAccept, LinesHosts, SplitOn, OneLiners, Clean;
    SplitLinesText(ls);
    LinesAcceptAppend(ls, [""]);
  }

  lemma EmptyLine()
    ensures LinesAccept([""]) == {} && LinesHosts([""]) == []
  {
    NoTabNoRule("");
    assert LinesAccept([""]) == LineAccepts("") + LinesAccept([]);
  }

  // ----- what the rules let through -----

  /** An outbound packet: whether its connection is established, whether it leaves by the loopback device,
      whether it is TCP, its port, and the printed form of its destination with its family. */
  datatype Packet = Packet(established: bool, loopback: bool, isTCP: bool, port: int, dest: string, v6: bool)

  predicate RuleLets(line: string, p: Packet) {
    || (line == NFT_STATEFUL && p.established)
    || (line == NFT_LOOPBACK && p.loopback)
    || (IsRule(NFT_V4, line) && p.isTCP && p.port == 443 && !p.v6 && p.dest in RuleEntries(NFT_V4, line))
    || (IsRule(NFT_V6, line) && p.isTCP && p.port == 443 && p.v6 && p.dest in RuleEntries(NFT_V6, line))
  }

  function SkipComments(ls: seq<string>): seq<string> {
    if ls != [] && "#" <= ls[0] then SkipComments(ls[1..]) else ls
  }

  /** One table with one output chain whose policy is to drop. */
  predicate DropsByDefault(ls: seq<string>) {
    && |ls| >= 6
    && ls[0] == NFT_TABLE && ls[1] == NFT_CHAIN && ls[2] == NFT_DROP
    && ls[|ls| - 3..] == ["\t}", "}", ""]
  }

  /** Whether a ruleset text lets a packet out. A text that is not such a chain is taken to let out all. */
  predicate Lets(text: string, p: Packet) {
    var ls := SkipComments(SplitOn(text, '\n'));
    DropsByDefault(ls) ==> exists line :: line in ls[3..|ls| - 3] && RuleLets(line, p)
  }

  lemma {:induction false} SkipsTop(xs: seq<string>, ys: seq<string>)
    requires (forall k :: 0 <= k < |xs| ==> "#" <= xs[k]) && ys != [] && !("#" <= ys[0])
    ensures SkipComments(xs + ys) == ys
  {
    if xs == [] {
      assert xs + ys == ys;
    } else {
      assert (xs + ys)[1..] == xs[1..] + ys;
      SkipsTop(xs[1..], ys);
    }
  }

  lemma TopIsComment(hosts: seq<string>)
    ensures forall k :: 0 <= k < |TOP + HostLines(hosts)| ==> "#" <= (TOP + HostLines(hosts))[k]
  {
    assert TITLE[0] == '#' && HOSTS_TITLE[0] == '#' && "#   "[0] == '#';
    hide TITLE, HOSTS_TITLE;
    forall k | 0 <= k < |HostLines(hosts)| ensures "#" <= HostLines(hosts)[k] {
      assert HostLines(hosts)[k][0] == '#';
    }
  }

  lemma StatefulLets(p: Packet)
    ensures RuleLets(NFT_STATEFUL, p) <==> p.established
  {
    FixedRules();
    hide IsRule, NFT_STATEFUL, NFT_LOOPBACK, NFT_V4, NFT_V6;
  }

  lemma LoopbackLets(p: Packet)
    ensures RuleLets(NFT_LOOPBACK, p) <==> p.loopback
  {
    FixedRules();
    hide IsRule, NFT_STATEFUL, NFT_LOOPBACK, NFT_V4, NFT_V6;
  }

  lemma FixedRules()
    ensures NFT_STATEFUL != NFT_LOOPBACK
    ensures !IsRule(NFT_V4, NFT_STATEFUL) && !IsRule(NFT_V6, NFT_STATEFUL)
    ensures !IsRule(NFT_V4, NFT_LOOPBACK) && !IsRule(NFT_V6, NFT_LOOPBACK)
  {
    FixedMarks();
    NoTabNoRule(NFT_STATEFUL);
    NoTabNoRule(NFT_LOOPBACK);
    hide NFT_STATEFUL, NFT_LOOPBACK, NFT_V4, NFT_V6, IsRule;
  }

  lemma FixedMarks()
    ensures |NFT_STATEFUL| > 3 && NFT_STATEFUL[3] == 't'
    ensures |NFT_LOOPBACK| > 3 && NFT_LOOPBACK[3] == 'i'
  {
  }

  lemma ListMarks(rule: string)
    requires rule == NFT_V4 || rule == NFT_V6
    ensures |rule| > 3 && rule[3] == 'c'
  {
  }

  lemma ListIsNotFixed(rule: string, rest: string)
    requires rule == NFT_V4 || rule == NFT_V6
    ensures rule + rest != NFT_STATEFUL && rule + rest != NFT_LOOPBACK
  {
    FixedMarks();
    ListMarks(rule);
    hide NFT_STATEFUL, NFT_LOOPBACK, NFT_V4, NFT_V6;
    assert (rule + rest)[3] == rule[3];
  }

  lemma ListEntries(rule: string, body: string, list: seq<string>)
    requires ReadList(body) == list
    ensures var line := rule + (body + NFT_END);
            IsRule(rule, line) && RuleEntries(rule, line) == Elements(list)
  {
    RuleBody(rule, body);
    hide IsRule, ReadList, NFT_END;
  }

  /** The line of one family lets out exactly new connections to port 443 of its listed addresses. */
  lemma ListLets(rule: string, list: seq<string>, p: Packet)
    requires (rule == NFT_V4 || rule == NFT_V6) && list != [] && forall k :: 0 <= k < |list| ==> Clean(list[k])
    ensures RuleLets(rule + (JoinWith(list, ", ") + NFT_END), p)
            <==> p.isTCP && p.port == 443 && p.v6 == (rule == NFT_V6) && p.dest in Elements(list)
  {
    hide *;
    var body := JoinWith(list, ", ");
    ReadJoined(list);
    ListIsNotFixed(rule, body + NFT_END);
    ListEntries(rule, body, list);
    OnlyOneFamily(rule, rule + (body + NFT_END));
    FamiliesDiffer();
    ListLineLets(rule, rule + (body + NFT_END), list, p);
  }

  lemma ListLineLets(rule: string, line: string, list: seq<string>, p: Packet)
    requires (rule == NFT_V4 || rule == NFT_V6) && NFT_V4 != NFT_V6
    requires line != NFT_STATEFUL && line != NFT_LOOPBACK
    requires IsRule(rule, line) && RuleEntries(rule, line) == Elements(list)
    requires (rule == NFT_V6 ==> !IsRule(NFT_V4, line)) && (rule == NFT_V4 ==> !IsRule(NFT_V6, line))
    ensures RuleLets(line, p) <==> p.isTCP && p.port == 443 && p.v6 == (rule == NFT_V6) && p.dest in Elements(list)
  {
    hide IsRule, RuleEntries, NFT_STATEFUL, NFT_LOOPBACK, NFT_V4, NFT_V6, Elements;
  }

  lemma FamiliesDiffer()
    ensures NFT_V4 != NFT_V6
  {
    assert NFT_V4[18] == ' ' && NFT_V6[18] == '6';
  }

  lemma FamilyLets(rule: string, list: seq<string>, p: Packet)
    requires (rule == NFT_V4 || rule == NFT_V6) && forall k :: 0 <= k < |list| ==> Clean(list[k])
    ensures (exists line :: line in RuleLine(rule, list) && RuleLets(line, p))
            <==> p.isTCP && p.port == 443 && p.v6 == (rule == NFT_V6) && p.dest in list
  {
    SameWords();
    hide RuleLets, JoinWith, NFT_V4, NFT_V6, NFT_END, RULE_END, Clean;
    if list != [] {
      ListLets(rule, list, p);
      assert rule + (JoinWith(list, ", ") + RULE_END) in RuleLine(rule, list);
      assert p.dest in Elements(list) <==> p.dest in list;
    }
  }

  /** The whole chain: apart from established connections and the loopback device, exactly new connections to
      port 443 of the addresses listed for their family. Everything else is dropped. */
  lemma RulesetLets(hosts: seq<string>, v4: seq<string>, v6: seq<string>, p: Packet)
    requires OneLiners(hosts)
    requires (forall k :: 0 <= k < |v4| ==> Clean(v4[k])) && (forall k :: 0 <= k < |v6| ==> Clean(v6[k]))
    ensures Lets(RulesetText(hosts, v4, v6), p) <==>
            p.established || p.loopback || (p.isTCP && p.port == 443 && p.dest in (if p.v6 then v6 else v4))
  {
    var rules := [NFT_STATEFUL, NFT_LOOPBACK] + (RuleLine(V4_RULE, v4) + RuleLine(V6_RULE, v6));
    RulesetChain(hosts, v4, v6);
    ChainRules(RuleLine(V4_RULE, v4) + RuleLine(V6_RULE, v6));
    SameWords();
    StatefulLets(p);
    LoopbackLets(p);
    FamilyLets(NFT_V4, v4, p);
    FamilyLets(NFT_V6, v6, p);
    FamiliesDiffer();
    hide RuleLets, RuleLine, RulesetText, DropsByDefault, SkipComments, SplitOn, Clean, OneLiners;
    hide NFT_STATEFUL, NFT_LOOPBACK, NFT_V4, NFT_V6, V4_RULE, V6_RULE;
    assert NFT_STATEFUL in rules && NFT_LOOPBACK in rules;
  }

  /** The lines after the comments. */
  function ChainLines(rules: seq<string>): seq<string> {
    [NFT_TABLE, NFT_CHAIN, NFT_DROP] + ([NFT_STATEFUL, NFT_LOOPBACK] + rules) + ["\t}", "}", ""]
  }

  lemma ChainRules(rules: seq<string>)
    ensures var ls := ChainLines(rules);
            DropsByDefault(ls) && ls[3..|ls| - 3] == [NFT_STATEFUL, NFT_LOOPBACK] + rules
  {
    hide NFT_TABLE, NFT_CHAIN, NFT_DROP, NFT_STATEFUL, NFT_LOOPBACK;
  }

  lemma RulesetChain(hosts: seq<string>, v4: seq<string>, v6: seq<string>)
    requires OneLiners(hosts)
    requires (forall k :: 0 <= k < |v4| ==> Clean(v4[k])) && (forall k :: 0 <= k < |v6| ==> Clean(v6[k]))
    ensures SkipComments(SplitOn(RulesetText(hosts, v4, v6), '\n'))
            == ChainLines(RuleLine(V4_RULE, v4) + RuleLine(V6_RULE, v6))
  {
    hide *;
    var ls := RulesetLines(hosts, v4, v6);
    var rules := RuleLine(V4_RULE, v4) + RuleLine(V6_RULE, v6);
    RulesetLinesRead(hosts, v4, v6);
    SplitLinesText(ls);
    RulesetTextIs(hosts, v4, v6);
    TopIsComment(hosts);
    ChainNotComment(rules);
    LinesInTwo(hosts, v4, v6);
    SkipsTop(TOP + HostLines(hosts), ChainLines(rules));
  }

  lemma RulesetTextIs(hosts: seq<string>, v4: seq<string>, v6: seq<string>)
    ensures RulesetText(hosts, v4, v6) == LinesText(RulesetLines(hosts, v4, v6))
  {
  }

  lemma ChainNotComment(rules: seq<string>)
    ensures ChainLines(rules) != [] && !("#" <= ChainLines(rules)[0])
  {
    assert NFT_TABLE[0] == 't' && "#"[0] == '#';
    hide NFT_TABLE, NFT_CHAIN, NFT_DROP, NFT_STATEFUL, NFT_LOOPBACK;
    assert ChainLines(rules)[0] == NFT_TABLE;
  }

  lemma LinesInTwo(hosts: seq<string>, v4: seq<string>, v6: seq<string>)
    ensures RulesetLines(hosts, v4, v6) + [""]
            == (TOP + HostLines(hosts)) + ChainLines(RuleLine(V4_RULE, v4) + RuleLine(V6_RULE, v6))
  {
    SameWords();
    hide TOP, CHAIN, BOTTOM, RuleLine, HostLines, NFT_TABLE, NFT_CHAIN, NFT_DROP, NFT_STATEFUL, NFT_LOOPBACK;
    var h, r4, r6 := HostLines(hosts), RuleLine(V4_RULE, v4), RuleLine(V6_RULE, v6);
    assert BOTTOM + [""] == ["\t}", "}", ""];
    assert CHAIN == [NFT_TABLE, NFT_CHAIN, NFT_DROP] + [NFT_STATEFUL, NFT_LOOPBACK];
    assert RulesetLines(hosts, v4, v6) == TOP + h + CHAIN + r4 + r6 + BOTTOM by {
      Regroup(TOP + h + CHAIN + r4, r6, BOTTOM);
      Regroup(TOP + h + CHAIN, r4, r6 + BOTTOM);
      Regroup(TOP + h, CHAIN, r4 + (r6 + BOTTOM));
      Regroup(TOP, h, CHAIN + (r4 + (r6 + BOTTOM)));
    }
  }

  // ----- rulesets and what identifies them -----

  /** `text` is the rendering of a host list and a set of addresses. */
  ghost predicate Displays(n: Notation, hosts: seq<string>, accepts: set<string>, text: string) {
    exists ips: seq<IP> ::
      && StrictlySorted(Texts(n, ips)) && Elements(Texts(n, ips)) == accepts
      && text == RulesetText(hosts, Dotteds(n, ips), Colons(n, ips))
  }

  /** `text` is the rendering of a host list and the addresses it resolves to. */
  ghost predicate IsRuleset(n: Notation, r: Resolver, hosts: seq<string>, text: string) {
    Displays(n, hosts, AllTexts(n, r, hosts), text)
  }

  lemma CleanLists(n: Notation, ips: seq<IP>)
    requires Faithful(n)
    ensures forall k :: 0 <= k < |Dotteds(n, ips)| ==> Clean(Dotteds(n, ips)[k])
    ensures forall k :: 0 <= k < |Colons(n, ips)| ==> Clean(Colons(n, ips)[k])
  {
    FamiliesCover(n, ips);
  }

  /** A displayed text lets through exactly its addresses and names exactly its hosts. */
  lemma DisplayedAccepts(n: Notation, hosts: seq<string>, accepts: set<string>, text: string)
    requires Faithful(n) && OneLiners(hosts) && Displays(n, hosts, accepts, text)
    ensures Accepted(text) == accepts && NamedHosts(text) == hosts
  {
    var ips: seq<IP> :|
      && StrictlySorted(Texts(n, ips)) && Elements(Texts(n, ips)) == accepts
      && text == RulesetText(hosts, Dotteds(n, ips), Colons(n, ips));
    FamiliesCover(n, ips);
    CleanLists(n, ips);
    hide RulesetText, Accepted, NamedHosts, Clean;
    RulesetReadsBack(hosts, Dotteds(n, ips), Colons(n, ips));
  }

  /** What a displayed text does to a packet: apart from established connections and the loopback device, it
      lets out exactly new connections to port 443 of its addresses, each by its own family. */
  lemma DisplayedLets(n: Notation, hosts: seq<string>, accepts: set<string>, text: string, p: Packet)
    requires Faithful(n) && OneLiners(hosts) && Displays(n, hosts, accepts, text)
    requires p.v6 <==> !IsDotted(n, p.dest)
    ensures Lets(text, p) <==> p.established || p.loopback || (p.isTCP && p.port == 443 && p.dest in accepts)
  {
    var ips: seq<IP> :|
      && StrictlySorted(Texts(n, ips)) && Elements(Texts(n, ips)) == accepts
      && text == RulesetText(hosts, Dotteds(n, ips), Colons(n, ips));
    FamiliesCover(n, ips);
    CleanLists(n, ips);
    hide RulesetText, Lets, Clean, IsDotted, Faithful, OneLiners;
    RulesetLets(hosts, Dotteds(n, ips), Colons(n, ips), p);
    assert p.dest in accepts <==> p.dest in Elements(Dotteds(n, ips)) + Elements(Colons(n, ips));
  }

  /** The union in full: an address is accepted exactly when some host resolves to one printed like it. */
  lemma AllTextsExactly(n: Notation, r: Resolver, hosts: seq<string>, t: string)
    ensures t in AllTexts(n, r, hosts) <==>
            exists h, ip :: h in hosts && r(h).Some? && ip in r(h).value && IPText(n, ip) == t
  {
    hide IPText;
    if t in AllTexts(n, r, hosts) {
      var h :| h in hosts && t in HostTexts(n, r, h);
      var k :| 0 <= k < |r(h).value| && Texts(n, r(h).value)[k] == t;
      assert r(h).value[k] in r(h).value && IPText(n, r(h).value[k]) == t;
    }
    if h, ip :| h in hosts && r(h).Some? && ip in r(h).value && IPText(n, ip) == t {
      var k :| 0 <= k < |r(h).value| && r(h).value[k] == ip;
      assert Texts(n, r(h).value)[k] == t;
      assert t in HostTexts(n, r, h);
    }
  }

  /** A ruleset lets through exactly the union of all resolved addresses. */
  lemma RulesetAccepts(n: Notation, r: Resolver, hosts: seq<string>, text: string)
    requires Faithful(n) && OneLiners(hosts) && IsRuleset(n, r, hosts, text)
    ensures Accepted(text) == AllTexts(n, r, hosts) && NamedHosts(text) == hosts
  {
    hide Displays, Accepted, NamedHosts, OneLiners, Faithful, AllTexts;
    DisplayedAccepts(n, hosts, AllTexts(n, r, hosts), text);
  }

  /** The text is determined by the host list and the set of addresses. */
  lemma DisplayedOnce(n: Notation, hosts: seq<string>, accepts: set<string>, x: string, y: string)
    requires Faithful(n) && Displays(n, hosts, accepts, x) && Displays(n, hosts, accepts, y)
    ensures x == y
  {
    hide RulesetText, Dotteds, Colons;
    var a: seq<IP> :|
      && StrictlySorted(Texts(n, a)) && Elements(Texts(n, a)) == accepts
      && x == RulesetText(hosts, Dotteds(n, a), Colons(n, a));
    var b: seq<IP> :|
      && StrictlySorted(Texts(n, b)) && Elements(Texts(n, b)) == accepts
      && y == RulesetText(hosts, Dotteds(n, b), Colons(n, b));
    StrictlySortedUnique(Texts(n, a), Texts(n, b));
    FamiliesByText(n, a, b);
  }

  lemma SameTexts(n: Notation, r: Resolver, s: Resolver, hosts: seq<string>, x: string, y: string)
    requires Faithful(n) && IsRuleset(n, r, hosts, x) && IsRuleset(n, s, hosts, y)
    requires AllTexts(n, r, hosts) == AllTexts(n, s, hosts)
    ensures x == y
  {
    hide Displays, AllTexts, Faithful;
    DisplayedOnce(n, hosts, AllTexts(n, r, hosts), x, y);
  }

  lemma AllTextsOfSet(n: Notation, r: Resolver, xs: seq<string>, ys: seq<string>)
    requires Elements(xs) == Elements(ys)
    ensures AllTexts(n, r, xs) == AllTexts(n, r, ys)
    ensures OneLiners(xs) ==> OneLiners(ys)
  {
    hide HostTexts;
    assert forall h :: h in xs <==> h in Elements(xs);
    assert forall h :: h in ys <==> h in Elements(ys);
    if OneLiners(xs) {
      forall k | 0 <= k < |ys| ensures '\n' !in ys[k] {
        assert ys[k] in Elements(xs);
      }
    }
  }

  /** The ruleset is a canonical form: two host lists, in any order and multiplicity, resolved by any
      two resolvers, give the same text exactly when they are the same set of hosts with the same
      set of addresses. */
  lemma RulesetCanonical(n: Notation, r: Resolver, xs: seq<string>, x: string, s: Resolver, ys: seq<string>, y: string)
    requires Faithful(n) && OneLiners(xs) && OneLiners(ys)
    requires IsRuleset(n, r, SortedSet(xs), x) && IsRuleset(n, s, SortedSet(ys), y)
    ensures x == y <==> Elements(xs) == Elements(ys) && AllTexts(n, r, xs) == AllTexts(n, s, ys)
  {
    SortedSetCanonical(xs);
    SortedSetCanonical(ys);
    hide SortedSet, IsRuleset, AllTexts, Accepted, NamedHosts, OneLiners;
    AllTextsOfSet(n, r, xs, SortedSet(xs));
    AllTextsOfSet(n, s, ys, SortedSet(ys));
    RulesetAccepts(n, r, SortedSet(xs), x);
    RulesetAccepts(n, s, SortedSet(ys), y);
    if Elements(xs) == Elements(ys) && AllTexts(n, r, xs) == AllTexts(n, s, ys) {
      StrictlySortedUnique(SortedSet(xs), SortedSet(ys));
      SameTexts(n, r, s, SortedSet(xs), x, y);
    }
  }

  // ----- the generator -----

  /** A refresh with these hosts produces a text. */
  predicate Renders(r: Resolver, hosts: seq<string>) {
    hosts != [] && forall h :: h in hosts ==> Resolves(r, h)
  }

  class Generator {
    var hosts: seq<string>
    /** The wake-up channel has room for one poke. */
    var queued: nat
    /** Every text handed to the applier so far, and the last one it applied. */
    ghost var attempts: seq<string>
    ghost var loaded: Option<string>

    constructor ()
      ensures hosts == [] && queued == 0 && attempts == [] && loaded == None
    {
      hosts, queued, attempts, loaded := [], 0, [], None;
    }

    /** The first half of UpdateHosts, under the lock. */
    method SetHosts(names: seq<string>)
      modifies this`hosts
      ensures hosts == SortedSet(names) && StrictlySorted(hosts) && Elements(hosts) == Elements(names)
    {
      var deduped := DedupSorted(names);
      hosts := deduped;
    }

    /** Its second half: a non-blocking send. */
    method Poke()
      requires queued <= 1
      modifies this`queued
      ensures queued == 1
    {
      if queued < 1 {
        queued := queued + 1;
      }
    }

    method UpdateHosts(names: seq<string>)
      requires queued <= 1
      modifies this`hosts, this`queued
      ensures hosts == SortedSet(names) && StrictlySorted(hosts) && Elements(hosts) == Elements(names)
      ensures queued == 1
    {
      SetHosts(names);
      Poke();
    }

    /** The receive that wakes the worker. */
    method TakePoke()
      requires queued > 0
      modifies this`queued
      ensures queued == old(queued) - 1
    {
      queued := queued - 1;
    }

    /** The part of Tick after the snapshot. */
    method Refresh(n: Notation, r: Resolver, snapshot: seq<string>, applies: bool) returns (ok: bool)
      modifies this`attempts, this`loaded
      ensures ok == (snapshot == [] || (Renders(r, snapshot) && applies))
      ensures !Renders(r, snapshot) ==> attempts == old(attempts) && loaded == old(loaded)
      ensures Renders(r, snapshot) ==>
                && |attempts| == |old(attempts)| + 1 && attempts[..|old(attempts)|] == old(attempts)
                && IsRuleset(n, r, snapshot, attempts[|old(attempts)|])
                && loaded == if applies then Some(attempts[|old(attempts)|]) else old(loaded)
    {
      hide RulesetText, AllTexts, Resolves;
      if snapshot == [] {
        return true;
      }
      var ips := ResolveAll(n, r, snapshot);
      if ips.None? {
        return false;
      }
      var text := Render(n, snapshot, ips.value);
      assert Displays(n, snapshot, AllTexts(n, r, snapshot), text);
      attempts := attempts + [text];
      if applies {
        loaded := Some(text);
      }
      return applies;
    }

    method Tick(n: Notation, r: Resolver, applies: bool) returns (ok: bool)
      modifies this`attempts, this`loaded
      ensures ok == (hosts == [] || (Renders(r, hosts) && applies))
      ensures !Renders(r, hosts) ==> attempts == old(attempts) && loaded == old(loaded)
      ensures Renders(r, hosts) ==>
                && |attempts| == |old(attempts)| + 1 && attempts[..|old(attempts)|] == old(attempts)
                && IsRuleset(n, r, hosts, attempts[|old(attempts)|])
                && loaded == if applies then Some(attempts[|old(attempts)|]) else old(loaded)
    {
      var snapshot := hosts;
      ok := Refresh(n, r, snapshot, applies);
    }
  }

  // ----- the companion -----

  /** What the system's resolver gives: addresses as text. */
  type Lookup = string -> Option<seq<string>>

  predicate Found(l: Lookup, h: string) {
    l(h).Some? && l(h).value != []
  }

  /** net.ParseIP on every entry; what does not parse is skipped. */
  function ParsedOf(parse: string -> Option<IP>, addrs: seq<string>): seq<IP> {
    if addrs == [] then []
    else
      var rest := ParsedOf(parse, addrs[..|addrs| - 1]);
      match parse(addrs[|addrs| - 1])
      case None => rest
      case Some(ip) => rest + [ip]
  }

  /** The addresses both programs make of what the resolver gives. */
  function Parsing(parse: string -> Option<IP>, l: Lookup): Resolver {
    h => match l(h) case None => None case Some(addrs) => Some(ParsedOf(parse, addrs))
  }

  /** The proxy's shim around the system's resolver, which the generator gets as its own. */
  method NetLookupHost(parse: string -> Option<IP>, l: Lookup, host: string) returns (ips: Option<seq<IP>>)
    ensures ips == Parsing(parse, l)(host)
  {
    var addrs := l(host);
    if addrs.None? {
      return None;
    }
    var out: seq<IP> := [];
    for k := 0 to |addrs.value|
      invariant out == ParsedOf(parse, addrs.value[..k])
    {
      assert addrs.value[..k + 1][..k] == addrs.value[..k];
      var ip := parse(addrs.value[k]);
      if ip.Some? {
        out := out + [ip.value];
      }
    }
    assert addrs.value[..|addrs.value|] == addrs.value;
    return Some(out);
  }

  method AddParsed(n: Notation, parse: string -> Option<IP>, seen: map<string, IP>, addrs: seq<string>) returns (out: map<string, IP>)
    requires Records(n, seen, seen.Keys)
    ensures Records(n, out, seen.Keys + Elements(Texts(n, ParsedOf(parse, addrs))))
  {
    out := seen;
    for k := 0 to |addrs|
      invariant Records(n, out, seen.Keys + Elements(Texts(n, ParsedOf(parse, addrs[..k]))))
    {
      assert addrs[..k + 1][..k] == addrs[..k];
      var ip := parse(addrs[k]);
      if ip.None? {
        continue;
      }
      TextsAppend(n, ParsedOf(parse, addrs[..k]), ip.value);
      out := out[IPText(n, ip.value) := ip.value];
    }
    assert addrs[..|addrs|] == addrs;
  }

  lemma TextsAppend(n: Notation, ips: seq<IP>, ip: IP)
    ensures Elements(Texts(n, ips + [ip])) == Elements(Texts(n, ips)) + {IPText(n, ip)}
  {
    assert Texts(n, ips + [ip]) == Texts(n, ips) + [IPText(n, ip)];
  }

  /** The companion's resolving: a host without any address is a failure, one without a valid address is not. */
  method CompanionResolveAll(n: Notation, parse: string -> Option<IP>, l: Lookup, hosts: seq<string>)
      returns (out: Option<seq<IP>>)
    ensures out.Some? <==> forall h :: h in hosts ==> Found(l, h)
    ensures out.Some? ==> StrictlySorted(Texts(n, out.value))
                          && Elements(Texts(n, out.value)) == AllTexts(n, Parsing(parse, l), hosts)
  {
    var seen: map<string, IP> := map[];
    for k := 0 to |hosts|
      invariant forall j :: 0 <= j < k ==> Found(l, hosts[j])
      invariant Records(n, seen, AllTexts(n, Parsing(parse, l), hosts[..k]))
    {
      var addrs := l(hosts[k]);
      assert hosts[k] in hosts;
      if addrs.None? || addrs.value == [] {
        return None;
      }
      MoreTexts(n, Parsing(parse, l), hosts, k);
      ParsedTexts(n, parse, l, hosts[k]);
      seen := AddParsed(n, parse, seen, addrs.value);
    }
    assert hosts[..|hosts|] == hosts;
    var list := SortedByText(n, seen);
    return Some(list);
  }

  lemma ParsedTexts(n: Notation, parse: string -> Option<IP>, l: Lookup, h: string)
    requires l(h).Some?
    ensures HostTexts(n, Parsing(parse, l), h) == Elements(Texts(n, ParsedOf(parse, l(h).value)))
  {
    hide ParsedOf;
    assert Parsing(parse, l)(h) == Some(ParsedOf(parse, l(h).value));
  }

  /** The companion produces a text for these hosts. */
  predicate CompanionRenders(l: Lookup, hosts: seq<string>) {
    hosts != [] && forall h :: h in hosts ==> Found(l, h)
  }

  /** The companion's run on a bundle: enabled hosts sorted but not deduplicated, then resolved and rendered. */
  method CompanionRuleset(n: Notation, parse: string -> Option<IP>, l: Lookup, b: Profile.Bundle) returns (text: Option<string>)
    ensures var hosts := SortStrings(Profile.EnabledHosts(b.brokers));
            && (text.Some? <==> CompanionRenders(l, hosts))
            && (text.Some? ==> IsRuleset(n, Parsing(parse, l), hosts, text.value))
  {
    hide RulesetText, AllTexts, Found, Parsing;
    var hosts := Profile.CollectEnabledHosts(b);
    hosts := SortStrings(hosts);
    if hosts == [] {
      return None;
    }
    var ips := CompanionResolveAll(n, parse, l, hosts);
    if ips.None? {
      return None;
    }
    var t := Render(n, hosts, ips.value);
    assert Displays(n, hosts, AllTexts(n, Parsing(parse, l), hosts), t);
    return Some(t);
  }

  /** A text of the companion and one of the proxy's generator, at different times perhaps: they let through
      the same addresses exactly when the resolvers gave the same set of addresses for the enabled hosts, and
      are byte-identical exactly when moreover no enabled host is listed twice. */
  lemma TextsAgree(n: Notation, r: Resolver, r': Resolver, hs: seq<string>, own: string, other: string)
    requires Faithful(n) && OneLiners(hs)
    requires IsRuleset(n, r, SortedSet(hs), own) && IsRuleset(n, r', SortStrings(hs), other)
    ensures Accepted(own) == Accepted(other) <==> AllTexts(n, r, hs) == AllTexts(n, r', hs)
    ensures own == other <==> Distinct(hs) && AllTexts(n, r, hs) == AllTexts(n, r', hs)
  {
    SortedSetCanonical(hs);
    SortKeepsElements(hs);
    DedupKeepsSet(hs);
    SortStringsSorts(hs);
    SortStringsSorts(Dedup(hs));
    SortLength(hs);
    hide IsRuleset, AllTexts, Accepted, NamedHosts, OneLiners, SortStrings, Dedup;
    AllTextsOfSet(n, r, hs, SortedSet(hs));
    AllTextsOfSet(n, r', hs, SortStrings(hs));
    RulesetAccepts(n, r, SortedSet(hs), own);
    RulesetAccepts(n, r', SortStrings(hs), other);
    if Distinct(hs) && AllTexts(n, r, hs) == AllTexts(n, r', hs) {
      AllTextsOfSet(n, r', hs, SortedSet(hs));
      SameTexts(n, r, r', SortStrings(hs), own, other);
    }
  }

  /** Some address of the host parses. */
  predicate HasAddress(parse: string -> Option<IP>, l: Lookup, h: string) {
    l(h).Some? && exists a :: a in l(h).value && parse(a).Some?
  }

  /** The parsed list holds exactly what some entry parses to. */
  lemma {:induction false} ParsedExactly(parse: string -> Option<IP>, addrs: seq<string>, ip: IP)
    ensures ip in ParsedOf(parse, addrs) <==> exists a :: a in addrs && parse(a) == Some(ip)
  {
    if addrs != [] {
      var rest, last := addrs[..|addrs| - 1], addrs[|addrs| - 1];
      ParsedExactly(parse, rest, ip);
      assert addrs == rest + [last];
    }
  }

  lemma {:induction false} SomeParse(parse: string -> Option<IP>, addrs: seq<string>)
    ensures ParsedOf(parse, addrs) != [] <==> exists a :: a in addrs && parse(a).Some?
  {
    if addrs != [] {
      var rest, last := addrs[..|addrs| - 1], addrs[|addrs| - 1];
      SomeParse(parse, rest);
      assert addrs == rest + [last];
    }
  }

  lemma ResolvesIfAddress(parse: string -> Option<IP>, l: Lookup, h: string)
    ensures Resolves(Parsing(parse, l), h) <==> HasAddress(parse, l, h)
    ensures HasAddress(parse, l, h) ==> Found(l, h)
  {
    if l(h).Some? {
      SomeParse(parse, l(h).value);
    }
  }

  /** With the same answers of the resolver, the proxy renders exactly when the companion does and every
      enabled host has an address that parses. */
  lemma ProxyRendersIff(parse: string -> Option<IP>, l: Lookup, hs: seq<string>)
    ensures Renders(Parsing(parse, l), SortedSet(hs))
            <==> CompanionRenders(l, SortStrings(hs)) && forall h :: h in hs ==> HasAddress(parse, l, h)
  {
    SortedSetCanonical(hs);
    SortKeepsElements(hs);
    var own, other := SortedSet(hs), SortStrings(hs);
    forall h ensures (h in own <==> h in hs) && (h in other <==> h in hs) {
      assert (h in Elements(own) <==> h in Elements(hs)) && (h in Elements(other) <==> h in Elements(hs));
    }
    forall h ensures Resolves(Parsing(parse, l), h) <==> HasAddress(parse, l, h) {
      ResolvesIfAddress(parse, l, h);
    }
    forall h | HasAddress(parse, l, h) ensures Found(l, h) {
      ResolvesIfAddress(parse, l, h);
    }
    hide SortedSet, SortStrings, Resolves, HasAddress, Found, Parsing;
    assert hs == [] ==> own == [] && other == [] by {
      if own != [] {
        assert own[0] in own;
      }
      if other != [] {
        assert other[0] in other;
      }
    }
    if hs != [] {
      assert hs[0] in own && hs[0] in other;
    }
  }

  /** What a program prints or applies, if anything. */
  ghost predicate Produces(n: Notation, r: Resolver, hosts: seq<string>, renders: bool, text: Option<string>) {
    && (text.Some? <==> renders)
    && (text.Some? ==> IsRuleset(n, r, hosts, text.value))
  }

  /** The companion and the proxy on the same bundle and the same answers of the resolver: they agree, in
      producing nothing or in a byte-identical text, exactly when the companion produces nothing, or no
      enabled host is listed twice and each has an address that parses. When both produce a text, the
      accepted addresses are the same. */
  lemma CompanionAgrees(n: Notation, parse: string -> Option<IP>, l: Lookup, b: Profile.Bundle,
                        own: Option<string>, other: Option<string>)
    requires Faithful(n) && OneLiners(Profile.EnabledHosts(b.brokers))
    requires var hosts := SortedSet(Profile.EnabledHosts(b.brokers));
             Produces(n, Parsing(parse, l), hosts, Renders(Parsing(parse, l), hosts), own)
    requires var hosts := SortStrings(Profile.EnabledHosts(b.brokers));
             Produces(n, Parsing(parse, l), hosts, CompanionRenders(l, hosts), other)
    ensures var hs := Profile.EnabledHosts(b.brokers);
            && (own.Some? <==> other.Some? && forall h :: h in hs ==> HasAddress(parse, l, h))
            && (own == other <==>
                  other.Some? ==> Distinct(hs) && forall h :: h in hs ==> HasAddress(parse, l, h))
            && (own.Some? ==> Accepted(own.value) == Accepted(other.value))
  {
    hide IsRuleset, Renders, CompanionRenders, HasAddress, Accepted, OneLiners, Faithful, Parsing, AllTexts, SortedSet, SortStrings, Distinct;
    var hs := Profile.EnabledHosts(b.brokers);
    ProxyRendersIff(parse, l, hs);
    if own.Some? {
      TextsAgree(n, Parsing(parse, l), Parsing(parse, l), hs, own.value, other.value);
    }
  }

  /** So a host whose addresses all fail to parse makes them differ: the proxy keeps its rules, the companion
      prints a text that names the host and lets nothing through for it. */
  lemma UnparsedHostDiffers(n: Notation, parse: string -> Option<IP>, l: Lookup, h: string, a: string, text: string)
    requires Faithful(n) && '\n' !in h && l(h) == Some([a]) && parse(a).None?
    requires IsRuleset(n, Parsing(parse, l), [h], text)
    ensures CompanionRenders(l, [h]) && !Renders(Parsing(parse, l), [h])
    ensures NamedHosts(text) == [h] && Accepted(text) == {}
  {
    ResolvesIfAddress(parse, l, h);
    assert h in [h];
    RulesetAccepts(n, Parsing(parse, l), [h], text);
    hide Accepted, NamedHosts;
  }

  lemma SortLength(s: seq<string>)
    ensures |SortStrings(s)| == |s| && |SortedSet(s)| == |Dedup(s)|
  {
    SortStringsSorts(s);
    SortStringsSorts(Dedup(s));
    assert |multiset(SortStrings(s))| == |multiset(s)|;
    assert |multiset(SortedSet(s))| == |multiset(Dedup(s))|;
  }
}
