/**
 * Parsing of `arp -a` output. Each line is searched for the leftmost match of
 * one of two fixed shapes:
 *   POSIX:  `(a.b.c.d) at ` followed by 17 characters of [0-9a-fA-F:]
 *   other:  `a.b.c.d`, whitespace, then 17 characters of [0-9a-fA-F-]
 * The hardware address is upper-cased (after turning '-' into ':' in the second
 * shape). Matching lines are folded into a map from IP to MAC, a later line
 * overriding an earlier one for the same IP.
 *
 * The regular-expression search is written out by hand: at each start position
 * the digit runs are taken greedily, which is exact here because every `\d+` of
 * both patterns is followed by a literal or class that contains no digit, and
 * `\s+` is followed by a class that contains no whitespace.
 */
module Arp {
  import opened Wrappers
  import opened Text

  datatype ArpEntry = ArpEntry(ip: string, mac: string)

  predicate IsHexDigit(c: char) {
    IsDigit(c) || 'a' <= c <= 'f' || 'A' <= c <= 'F'
  }

  /** The characters of `[0-9a-fA-F:]`. */
  predicate PosixMacChar(c: char) {
    IsHexDigit(c) || c == ':'
  }

  /** The characters of `[0-9a-fA-F-]`. */
  predicate OtherMacChar(c: char) {
    IsHexDigit(c) || c == '-'
  }

  /** The 17 characters the MAC group of the POSIX (or the other) pattern accepts. */
  predicate IsMacOf(m: string, posix: bool) {
    |m| == 17 && forall k :: 0 <= k < 17 ==> if posix then PosixMacChar(m[k]) else OtherMacChar(m[k])
  }

  /** A hardware address as the table stores it: 17 characters of 0-9, A-F and ':'. */
  predicate IsStoredMac(m: string) {
    |m| == 17 && forall i :: 0 <= i < |m| ==> IsDigit(m[i]) || 'A' <= m[i] <= 'F' || m[i] == ':'
  }

  /** Four non-empty runs of decimal digits separated by dots. */
  predicate IsDottedQuad(ip: string) {
    var parts := Split(ip, '.');
    |parts| == 4 && forall i :: 0 <= i < 4 ==> |parts[i]| > 0 && AllDigits(parts[i])
  }

  function UpperChar(c: char): char {
    if 'a' <= c <= 'z' then (c as int - 32) as char else c
  }

  /** `str.upper()` on ASCII text. */
  function Upper(s: string): string
  {
    seq(|s|, i requires 0 <= i < |s| => UpperChar(s[i]))
  }

  /** `s.replace('-', ':')`. */
  function HyphensToColons(s: string): string
  {
    seq(|s|, i requires 0 <= i < |s| => if s[i] == '-' then ':' else s[i])
  }

  lemma UpperMacExample()
    ensures Upper("aa:bb:cc:dd:ee:ff") == "AA:BB:CC:DD:EE:FF"
  {
    var m := "aa:bb:cc:dd:ee:ff";
    var e := "AA:BB:CC:DD:EE:FF";
    forall i | 0 <= i < 17 ensures Upper(m)[i] == e[i] {
      assert Upper(m)[i] == UpperChar(m[i]);
    }
  }

  lemma OtherMacExample()
    ensures Upper(HyphensToColons("aa-bb-cc-dd-ee-ff")) == "AA:BB:CC:DD:EE:FF"
  {
    var m := "aa-bb-cc-dd-ee-ff";
    var e := "AA:BB:CC:DD:EE:FF";
    var h := HyphensToColons(m);
    forall i | 0 <= i < 17 ensures Upper(h)[i] == e[i] {
      assert h[i] == if m[i] == '-' then ':' else m[i];
      assert Upper(h)[i] == UpperChar(h[i]);
    }
  }

  // ---------------------------------------------------------------------------
  // The matcher, on the remainder of a line from a candidate start position

  /** The length of the maximal run of digits at the start of `t`. */
  function DigitRun(t: string): (n: nat)
    ensures n <= |t|
  {
    if |t| > 0 && IsDigit(t[0]) then 1 + DigitRun(t[1..]) else 0
  }

  /** DigitRun stops at the first non-digit. */
  lemma {:induction false} DigitRunIsMaximal(t: string)
    ensures AllDigits(t[..DigitRun(t)])
    ensures DigitRun(t) < |t| ==> !IsDigit(t[DigitRun(t)])
  {
    if |t| > 0 && IsDigit(t[0]) {
      DigitRunIsMaximal(t[1..]);
      assert t[..DigitRun(t)] == [t[0]] + t[1..][..DigitRun(t[1..])];
    }
  }

  /** The length of the maximal run of whitespace at the start of `t`. */
  function SpaceRun(t: string): (n: nat)
    ensures n <= |t|
  {
    if |t| > 0 && IsSpace(t[0]) then 1 + SpaceRun(t[1..]) else 0
  }

  /** The length of a match of `\d+` followed by `n - 1` times `\.\d+`, at the start of `t`. */
  function MatchGroups(t: string, n: nat): (r: Option<nat>)
    requires n >= 1
    ensures r.Some? ==> 0 < r.value <= |t|
    decreases n
  {
    var j := DigitRun(t);
    if j == 0 then None
    else if n == 1 then Some(j)
    else if j < |t| && t[j] == '.' then
      match MatchGroups(t[j + 1..], n - 1)
      case None => None
      case Some(m) => Some(j + 1 + m)
    else None
  }

  /** The upper-cased MAC when `rest` starts with ` at ` closing the parenthesis and 17 MAC characters. */
  function PosixTail(rest: string): Option<string>
  {
    if |rest| >= 22 && rest[..5] == ") at " && IsMacOf(rest[5..22], true)
    then Some(Upper(rest[5..22]))
    else None
  }

  /** A match of the POSIX pattern at the start of `t`. */
  function MatchPosix(t: string): Option<ArpEntry>
  {
    if |t| > 0 && t[0] == '(' then
      match MatchGroups(t[1..], 4)
      case None => None
      case Some(e) =>
        match PosixTail(t[1 + e..])
        case None => None
        case Some(mac) => Some(ArpEntry(t[1..1 + e], mac))
    else None
  }

  /** The normalised MAC when `rest` starts with whitespace and 17 MAC characters. */
  function OtherTail(rest: string): Option<string>
  {
    var w := SpaceRun(rest);
    if w > 0 && w + 17 <= |rest| && IsMacOf(rest[w..w + 17], false)
    then Some(Upper(HyphensToColons(rest[w..w + 17])))
    else None
  }

  /** A match of the non-POSIX pattern at the start of `t`. */
  function MatchOther(t: string): Option<ArpEntry>
  {
    match MatchGroups(t, 4)
    case None => None
    case Some(e) =>
      match OtherTail(t[e..])
      case None => None
      case Some(mac) => Some(ArpEntry(t[..e], mac))
  }

  function MatchAt(t: string, posix: bool): Option<ArpEntry>
  {
    if posix then MatchPosix(t) else MatchOther(t)
  }

  /** `t` begins with the POSIX match of entry `e`, whose MAC group is `m`: `(ip) at m`. */
  predicate PosixAt(t: string, e: ArpEntry, m: string) {
    IsMacOf(m, true) && e.mac == Upper(m) && "(" + e.ip + ") at " + m <= t
  }

  /** `t` begins with the non-POSIX match of entry `e`: its IP, the whitespace `w`, then the MAC group `m`. */
  predicate OtherAt(t: string, e: ArpEntry, w: string, m: string) {
    && |w| > 0 && (forall k :: 0 <= k < |w| ==> IsSpace(w[k]))
    && IsMacOf(m, false) && e.mac == Upper(HyphensToColons(m))
    && e.ip + w + m <= t
  }

  /** Entry `e` is spelled out somewhere in `line` in the shape of the platform's pattern. */
  ghost predicate FoundIn(line: string, e: ArpEntry, posix: bool) {
    if posix then exists p, m :: 0 <= p <= |line| && PosixAt(line[p..], e, m)
    else exists p, w, m :: 0 <= p <= |line| && OtherAt(line[p..], e, w, m)
  }

  /** `re.search`: the match at the leftmost start position that has one. */
  function Search(t: string, posix: bool): (r: Option<ArpEntry>)
    ensures r.Some? ==> IsDottedQuad(r.value.ip) && IsStoredMac(r.value.mac)
  {
    var m := MatchAt(t, posix);
    if m.Some? then MatchAtWellFormed(t, posix); m
    else if |t| > 0 then Search(t[1..], posix)
    else None
  }

  /** The entry one line of `arp -a` contributes, if any. */
  function ParseLine(line: string, posix: bool): (r: Option<ArpEntry>)
    ensures r.Some? ==> IsDottedQuad(r.value.ip) && IsStoredMac(r.value.mac)
    ensures r.Some? ==> FoundIn(line, r.value, posix)
  {
    SearchFound(line, posix);
    Search(line, posix)
  }

  // ---------------------------------------------------------------------------
  // What a match yields

  lemma {:induction false} MatchGroupsSplits(t: string, n: nat)
    requires n >= 1 && MatchGroups(t, n).Some?
    ensures var parts := Split(t[..MatchGroups(t, n).value], '.');
      |parts| == n && forall k :: 0 <= k < n ==> |parts[k]| > 0 && AllDigits(parts[k])
    decreases n
  {
    var j := DigitRun(t);
    DigitRunIsMaximal(t);
    if n == 1 {
      SplitNoSep(t[..j], '.');
    } else {
      var rest := t[j + 1..];
      MatchGroupsStep(t, n);
      MatchGroupsSplits(rest, n - 1);
      var m := MatchGroups(rest, n - 1).value;
      var head, later := t[..j], Split(rest[..m], '.');
      SliceAroundDot(t, j, m);
      DigitsHaveNoDot(head);
      SplitAtSep(head, '.', rest[..m]);
      PrependGroup(head, later, n);
      assert Split(t[..MatchGroups(t, n).value], '.') == [head] + later;
    }
  }

  /** A match of n >= 2 groups is a digit run, a dot and a match of n - 1 groups. */
  lemma MatchGroupsStep(t: string, n: nat)
    requires n >= 2 && MatchGroups(t, n).Some?
    ensures var j := DigitRun(t);
      0 < j < |t| && t[j] == '.' && MatchGroups(t[j + 1..], n - 1).Some?
      && MatchGroups(t, n).value == j + 1 + MatchGroups(t[j + 1..], n - 1).value
  {
  }

  lemma PrependGroup(head: string, later: seq<string>, n: nat)
    requires n >= 1 && |later| == n - 1 && |head| > 0 && AllDigits(head)
    requires forall k :: 0 <= k < n - 1 ==> |later[k]| > 0 && AllDigits(later[k])
    ensures var parts := [head] + later;
      |parts| == n && forall k :: 0 <= k < n ==> |parts[k]| > 0 && AllDigits(parts[k])
  {
    var parts := [head] + later;
    forall k | 0 <= k < n ensures |parts[k]| > 0 && AllDigits(parts[k]) {
      if k > 0 {
        assert parts[k] == later[k - 1];
      }
    }
  }

  lemma DigitsHaveNoDot(s: string)
    requires AllDigits(s)
    ensures '.' !in s
  {
  }

  lemma SliceAroundDot(t: string, j: nat, m: nat)
    requires j < |t| && t[j] == '.' && m <= |t| - j - 1
    ensures t[..j + 1 + m] == t[..j] + ['.'] + t[j + 1..][..m]
  {
  }

  lemma StoredMacOf(m: string, posix: bool)
    requires IsMacOf(m, posix)
    ensures IsStoredMac(Upper(if posix then m else HyphensToColons(m)))
  {
  }

  lemma MatchAtWellFormed(t: string, posix: bool)
    requires MatchAt(t, posix).Some?
    ensures IsDottedQuad(MatchAt(t, posix).value.ip) && IsStoredMac(MatchAt(t, posix).value.mac)
  {
    if posix {
      var e := MatchGroups(t[1..], 4).value;
      var rest := t[1 + e..];
      MatchGroupsSplits(t[1..], 4);
      assert t[1..][..e] == t[1..1 + e];
      StoredMacOf(rest[5..22], true);
    } else {
      var e := MatchGroups(t, 4).value;
      var rest := t[e..];
      var w := SpaceRun(rest);
      MatchGroupsSplits(t, 4);
      StoredMacOf(rest[w..w + 17], false);
    }
  }

  /** SpaceRun covers only whitespace. */
  lemma {:induction false} SpaceRunIsSpace(t: string)
    ensures forall k :: 0 <= k < SpaceRun(t) ==> IsSpace(t[k])
  {
    if |t| > 0 && IsSpace(t[0]) {
      SpaceRunIsSpace(t[1..]);
      forall k | 0 < k < SpaceRun(t) ensures IsSpace(t[k]) {
        assert t[k] == t[1..][k - 1];
      }
    }
  }

  /** A match at the start of `t` spells out its entry there. */
  lemma MatchAtFound(t: string, posix: bool)
    requires MatchAt(t, posix).Some?
    ensures FoundIn(t, MatchAt(t, posix).value, posix)
  {
    assert t[0..] == t;
    if posix {
      var m := PosixMatchSpelled(t);
      assert PosixAt(t[0..], MatchAt(t, posix).value, m);
    } else {
      var w, m := OtherMatchSpelled(t);
      assert OtherAt(t[0..], MatchAt(t, posix).value, w, m);
    }
  }

  lemma PosixMatchSpelled(t: string) returns (m: string)
    requires MatchPosix(t).Some?
    ensures PosixAt(t, MatchPosix(t).value, m)
  {
    var e := MatchGroups(t[1..], 4).value;
    var rest := t[1 + e..];
    var ip := t[1..1 + e];
    m := rest[5..22];
    assert MatchPosix(t).value == ArpEntry(ip, Upper(m));
    PosixSpan(t, e, ip, rest, m);
  }

  lemma PosixSpan(t: string, e: nat, ip: string, rest: string, m: string)
    requires |t| > 0 && t[0] == '(' && 1 + e <= |t| && ip == t[1..1 + e] && rest == t[1 + e..]
    requires |rest| >= 22 && rest[..5] == ") at " && m == rest[5..22]
    ensures "(" + ip + ") at " + m <= t
  {
    assert t[..1 + e] == "(" + ip;
    assert rest[..22] == ") at " + m;
    PrefixJoin(t, 1 + e, "(" + ip, ") at " + m);
  }

  /** A text that begins with `a` at 0 and with `b` at `|a|` begins with `a + b`. */
  lemma PrefixJoin(t: string, n: nat, a: string, b: string)
    requires n <= |t| && t[..n] == a && b <= t[n..]
    ensures a + b <= t
  {
    assert t[..n + |b|] == t[..n] + t[n..][..|b|];
  }

  lemma OtherMatchSpelled(t: string) returns (w: string, m: string)
    requires MatchOther(t).Some?
    ensures OtherAt(t, MatchOther(t).value, w, m)
  {
    var e := MatchGroups(t, 4).value;
    var rest := t[e..];
    var n := SpaceRun(rest);
    w := rest[..n];
    m := rest[n..n + 17];
    assert MatchOther(t).value == ArpEntry(t[..e], Upper(HyphensToColons(m)));
    SpaceRunIsSpace(rest);
    OtherSpan(t, e, rest, n, w, m);
  }

  lemma OtherSpan(t: string, e: nat, rest: string, n: nat, w: string, m: string)
    requires e <= |t| && rest == t[e..] && n + 17 <= |rest| && w == rest[..n] && m == rest[n..n + 17]
    ensures t[..e] + w + m <= t
  {
    assert rest[..n + 17] == w + m;
    PrefixJoin(t, e, t[..e], w + m);
  }

  /** What the search finds is spelled out in the searched text. */
  lemma {:induction false} SearchFound(t: string, posix: bool)
    ensures Search(t, posix).Some? ==> FoundIn(t, Search(t, posix).value, posix)
  {
    if MatchAt(t, posix).Some? {
      MatchAtFound(t, posix);
    } else if |t| > 0 && Search(t, posix).Some? {
      var entry := Search(t, posix).value;
      SearchFound(t[1..], posix);
      if posix {
        var p, m :| 0 <= p <= |t[1..]| && PosixAt(t[1..][p..], entry, m);
        assert t[1..][p..] == t[p + 1..];
        assert PosixAt(t[p + 1..], entry, m);
      } else {
        var p, w, m :| 0 <= p <= |t[1..]| && OtherAt(t[1..][p..], entry, w, m);
        assert t[1..][p..] == t[p + 1..];
        assert OtherAt(t[p + 1..], entry, w, m);
      }
    }
  }

  // ---------------------------------------------------------------------------
  // The table

  /** The entry each line contributes, if any, line by line. */
  function ParseAll(lines: seq<string>, posix: bool): (es: seq<Option<ArpEntry>>)
    ensures |es| == |lines|
    ensures forall k :: 0 <= k < |lines| ==> es[k] == ParseLine(lines[k], posix)
  {
    seq(|lines|, k requires 0 <= k < |lines| => ParseLine(lines[k], posix))
  }

  /** The table built from the entries in order: a later entry for an IP overrides an earlier one. */
  function TableOf(es: seq<Option<ArpEntry>>): map<string, string>
  {
    if |es| == 0 then map[]
    else
      var t := TableOf(es[..|es| - 1]);
      match es[|es| - 1]
      case None => t
      case Some(entry) => t[entry.ip := entry.mac]
  }

  /** The table `get_arp_table` builds from the lines of `arp -a`. */
  function ArpTableOf(lines: seq<string>, posix: bool): map<string, string>
  {
    TableOf(ParseAll(lines, posix))
  }

  /** An entry one more line contributes is added on top of the table of the earlier lines. */
  lemma TableStep(es: seq<Option<ArpEntry>>, i: nat, table: map<string, string>)
    requires i < |es| && table == TableOf(es[..i])
    ensures es[i].None? ==> TableOf(es[..i + 1]) == table
    ensures es[i].Some? ==> TableOf(es[..i + 1]) == table[es[i].value.ip := es[i].value.mac]
  {
    assert es[..i + 1][..i] == es[..i];
  }

  /** Every key is a dotted quad and every stored MAC is upper case with no '-'. */
  lemma {:induction false} TableWellFormed(es: seq<Option<ArpEntry>>)
    requires forall k :: 0 <= k < |es| && es[k].Some? ==> IsDottedQuad(es[k].value.ip) && IsStoredMac(es[k].value.mac)
    ensures forall ip :: ip in TableOf(es) ==> IsDottedQuad(ip) && IsStoredMac(TableOf(es)[ip])
  {
    if |es| > 0 {
      TableWellFormed(es[..|es| - 1]);
    }
  }

  lemma ArpTableWellFormed(lines: seq<string>, posix: bool)
    ensures forall ip :: ip in ArpTableOf(lines, posix) ==> IsDottedQuad(ip) && IsStoredMac(ArpTableOf(lines, posix)[ip])
  {
    TableWellFormed(ParseAll(lines, posix));
  }

  /** An IP is in the table exactly when some entry carries it. */
  lemma {:induction false} TableKeys(es: seq<Option<ArpEntry>>, ip: string)
    ensures ip in TableOf(es) <==> exists j :: 0 <= j < |es| && es[j].Some? && es[j].value.ip == ip
  {
    if |es| > 0 {
      var init := es[..|es| - 1];
      TableKeys(init, ip);
      assert forall j :: 0 <= j < |init| ==> init[j] == es[j];
    }
  }

  /** An IP is in the table exactly when some line matches with that IP. */
  lemma ArpTableKeys(lines: seq<string>, posix: bool, ip: string)
    ensures ip in ArpTableOf(lines, posix) <==>
      exists j :: 0 <= j < |lines| && ParseLine(lines[j], posix).Some? && ParseLine(lines[j], posix).value.ip == ip
  {
    var es := ParseAll(lines, posix);
    TableKeys(es, ip);
    if exists j :: 0 <= j < |lines| && ParseLine(lines[j], posix).Some? && ParseLine(lines[j], posix).value.ip == ip {
      var j :| 0 <= j < |lines| && ParseLine(lines[j], posix).Some? && ParseLine(lines[j], posix).value.ip == ip;
      assert es[j].Some? && es[j].value.ip == ip;
    }
  }

  /** For a repeated IP the last entry carrying it wins. */
  lemma {:induction false} TableLastWins(es: seq<Option<ArpEntry>>, j: nat)
    requires j < |es| && es[j].Some?
    requires forall k :: j < k < |es| ==> es[k].None? || es[k].value.ip != es[j].value.ip
    ensures es[j].value.ip in TableOf(es) && TableOf(es)[es[j].value.ip] == es[j].value.mac
  {
    if j < |es| - 1 {
      var init := es[..|es| - 1];
      assert forall k :: 0 <= k < |init| ==> init[k] == es[k];
      TableLastWins(init, j);
    }
  }

  /** For a repeated IP the last matching line wins. */
  lemma ArpTableLastWins(lines: seq<string>, posix: bool, j: nat)
    requires j < |lines| && ParseLine(lines[j], posix).Some?
    requires forall k :: j < k < |lines| ==>
      ParseLine(lines[k], posix).None? || ParseLine(lines[k], posix).value.ip != ParseLine(lines[j], posix).value.ip
    ensures var entry := ParseLine(lines[j], posix).value;
      entry.ip in ArpTableOf(lines, posix) && ArpTableOf(lines, posix)[entry.ip] == entry.mac
  {
    TableLastWins(ParseAll(lines, posix), j);
  }

  /** A line that does not match adds nothing. */
  lemma ArpTableSkips(lines: seq<string>, line: string, posix: bool)
    requires ParseLine(line, posix).None?
    ensures ArpTableOf(lines + [line], posix) == ArpTableOf(lines, posix)
  {
    var es := ParseAll(lines + [line], posix);
    assert es[..|lines|] == ParseAll(lines, posix);
  }

  // ---------------------------------------------------------------------------
  // The two line shapes parse as intended

  lemma {:induction false} DigitRunOver(a: string, x: string)
    requires AllDigits(a)
    requires |x| == 0 || !IsDigit(x[0])
    ensures DigitRun(a + x) == |a|
  {
    if |a| > 0 {
      assert (a + x)[1..] == a[1..] + x;
      DigitRunOver(a[1..], x);
    } else {
      assert a + x == x;
    }
  }

  lemma {:induction false} SpaceRunOver(a: string, x: string)
    requires forall k :: 0 <= k < |a| ==> IsSpace(a[k])
    requires |x| == 0 || !IsSpace(x[0])
    ensures SpaceRun(a + x) == |a|
  {
    if |a| > 0 {
      assert (a + x)[1..] == a[1..] + x;
      SpaceRunOver(a[1..], x);
    } else {
      assert a + x == x;
    }
  }

  predicate Octet(a: string) {
    |a| > 0 && AllDigits(a)
  }

  /** A digit group followed by a dot: the match continues after the dot. */
  lemma GroupThenDot(a: string, u: string, n: nat, m: nat)
    requires Octet(a) && n >= 2
    requires MatchGroups(u, n - 1) == Some(m)
    ensures MatchGroups(a + (['.'] + u), n) == Some(|a| + 1 + m)
  {
    var t := a + (['.'] + u);
    DigitRunOver(a, ['.'] + u);
    assert t[|a|] == '.';
    assert t[|a| + 1..] == u;
  }

  lemma JoinedGroupsStep(parts: seq<string>, post: string)
    requires |parts| >= 2 && Octet(parts[0])
    requires MatchGroups(Join(parts[1..], '.') + post, |parts| - 1) == Some(|Join(parts[1..], '.')|)
    ensures MatchGroups(Join(parts, '.') + post, |parts|) == Some(|Join(parts, '.')|)
  {
    var a := parts[0];
    var tail := Join(parts[1..], '.');
    GroupThenDot(a, tail + post, |parts|, |tail|);
    JoinDotThen(parts, post, a, tail);
  }

  lemma JoinDotThen(parts: seq<string>, post: string, a: string, tail: string)
    requires |parts| >= 2 && a == parts[0] && tail == Join(parts[1..], '.')
    ensures Join(parts, '.') + post == a + (['.'] + (tail + post))
    ensures |Join(parts, '.')| == |a| + 1 + |tail|
  {
    assert Join(parts, '.') == a + ['.'] + tail;
  }

  /** Digit groups joined by dots are matched as that many groups, up to the next non-digit. */
  lemma {:induction false} JoinedGroupsMatch(parts: seq<string>, post: string)
    requires |parts| >= 1 && forall k :: 0 <= k < |parts| ==> Octet(parts[k])
    requires |post| == 0 || !IsDigit(post[0])
    ensures MatchGroups(Join(parts, '.') + post, |parts|) == Some(|Join(parts, '.')|)
  {
    if |parts| == 1 {
      DigitRunOver(parts[0], post);
    } else {
      var rest := parts[1..];
      assert forall k :: 0 <= k < |rest| ==> Octet(rest[k]) by {
        forall k | 0 <= k < |rest| ensures Octet(rest[k]) {
          assert rest[k] == parts[k + 1];
        }
      }
      JoinedGroupsMatch(rest, post);
      JoinedGroupsStep(parts, post);
    }
  }

  /** Start positions at which nothing can match are passed over by the search. */
  lemma {:induction false} SearchSkips(prefix: string, x: string, posix: bool)
    requires forall k :: 0 <= k < |prefix| ==> if posix then prefix[k] != '(' else !IsDigit(prefix[k])
    ensures Search(prefix + x, posix) == Search(x, posix)
  {
    if |prefix| > 0 {
      var t := prefix + x;
      if !posix {
        assert DigitRun(t) == 0;
      }
      assert MatchAt(t, posix).None?;
      assert t[1..] == prefix[1..] + x;
      SearchSkips(prefix[1..], x, posix);
    } else {
      assert prefix + x == x;
    }
  }

  function Quad(a: string, b: string, c: string, d: string): string {
    a + "." + b + "." + c + "." + d
  }

  lemma QuadIsJoin(a: string, b: string, c: string, d: string)
    ensures Quad(a, b, c, d) == Join([a, b, c, d], '.')
  {
    var parts := [a, b, c, d];
    assert parts[1..] == [b, c, d];
    assert parts[1..][1..] == [c, d];
    assert parts[1..][1..][1..] == [d];
    assert Join([d], '.') == d;
    assert Join([c, d], '.') == c + "." + d;
    assert Join([b, c, d], '.') == b + "." + (c + "." + d);
    assert Join(parts, '.') == a + "." + (b + "." + (c + "." + d));
  }

  lemma PosixTailOf(mac: string, suffix: string)
    requires IsMacOf(mac, true)
    ensures PosixTail(") at " + mac + suffix) == Some(Upper(mac))
  {
    var rest := ") at " + mac + suffix;
    assert rest[..5] == ") at ";
    assert rest[5..22] == mac;
  }

  /** A dotted quad in parentheses followed by ` at ` and a MAC matches at the opening parenthesis. */
  lemma PosixMatchesAt(q: string, a: string, b: string, c: string, d: string, mac: string, suffix: string)
    requires Octet(a) && Octet(b) && Octet(c) && Octet(d) && q == Quad(a, b, c, d)
    requires IsMacOf(mac, true)
    ensures MatchPosix("(" + q + (") at " + mac + suffix)) == Some(ArpEntry(q, Upper(mac)))
  {
    var post := ") at " + mac + suffix;
    var t := "(" + q + post;
    assert t[1..] == q + post;
    QuadIsJoin(a, b, c, d);
    JoinedGroupsMatch([a, b, c, d], post);
    assert t[1 + |q|..] == post;
    assert t[1..1 + |q|] == q;
    PosixTailOf(mac, suffix);
  }

  /**
   * A POSIX line `prefix(a.b.c.d) at mac…` whose prefix holds no '(' yields the
   * dotted quad and the upper-cased MAC.
   */
  lemma PosixLineParses(prefix: string, a: string, b: string, c: string, d: string, mac: string, suffix: string)
    requires '(' !in prefix
    requires Octet(a) && Octet(b) && Octet(c) && Octet(d)
    requires IsMacOf(mac, true)
    ensures ParseLine(prefix + "(" + Quad(a, b, c, d) + ") at " + mac + suffix, true)
      == Some(ArpEntry(Quad(a, b, c, d), Upper(mac)))
  {
    var q := Quad(a, b, c, d);
    var t := "(" + q + (") at " + mac + suffix);
    assert prefix + "(" + q + ") at " + mac + suffix == prefix + t;
    SearchSkips(prefix, t, true);
    PosixMatchesAt(q, a, b, c, d, mac, suffix);
  }

  lemma OtherTailOf(gap: string, mac: string, suffix: string)
    requires |gap| > 0 && forall k :: 0 <= k < |gap| ==> IsSpace(gap[k])
    requires IsMacOf(mac, false)
    ensures OtherTail(gap + (mac + suffix)) == Some(Upper(HyphensToColons(mac)))
  {
    var rest := gap + (mac + suffix);
    SpaceRunOver(gap, mac + suffix);
    assert rest[|gap|..|gap| + 17] == mac;
  }

  /** A dotted quad, whitespace and a MAC match at the first digit of the quad. */
  lemma OtherMatchesAt(q: string, a: string, b: string, c: string, d: string, gap: string, mac: string, suffix: string)
    requires Octet(a) && Octet(b) && Octet(c) && Octet(d) && q == Quad(a, b, c, d)
    requires |gap| > 0 && forall k :: 0 <= k < |gap| ==> IsSpace(gap[k])
    requires IsMacOf(mac, false)
    ensures MatchOther(q + (gap + (mac + suffix))) == Some(ArpEntry(q, Upper(HyphensToColons(mac))))
  {
    var rest := gap + (mac + suffix);
    var t := q + rest;
    QuadIsJoin(a, b, c, d);
    JoinedGroupsMatch([a, b, c, d], rest);
    assert t[|q|..] == rest;
    assert t[..|q|] == q;
    OtherTailOf(gap, mac, suffix);
  }

  /**
   * A non-POSIX line `prefix a.b.c.d<whitespace>mac…` whose prefix holds no digit
   * yields the dotted quad and the MAC with colons for hyphens, upper-cased.
   */
  lemma OtherLineParses(prefix: string, a: string, b: string, c: string, d: string, gap: string, mac: string, suffix: string)
    requires forall k :: 0 <= k < |prefix| ==> !IsDigit(prefix[k])
    requires Octet(a) && Octet(b) && Octet(c) && Octet(d)
    requires |gap| > 0 && forall k :: 0 <= k < |gap| ==> IsSpace(gap[k])
    requires IsMacOf(mac, false)
    ensures ParseLine(prefix + Quad(a, b, c, d) + gap + mac + suffix, false)
      == Some(ArpEntry(Quad(a, b, c, d), Upper(HyphensToColons(mac))))
  {
    var q := Quad(a, b, c, d);
    var t := q + (gap + (mac + suffix));
    assert prefix + q + gap + mac + suffix == prefix + t;
    SearchSkips(prefix, t, false);
    OtherMatchesAt(q, a, b, c, d, gap, mac, suffix);
  }

  /** `? (192.168.1.5) at aa:bb:cc:dd:ee:ff [ether] on eth0` gives 192.168.1.5 -> AA:BB:CC:DD:EE:FF. */
  lemma PosixExample()
    ensures ParseLine("? (192.168.1.5) at aa:bb:cc:dd:ee:ff [ether] on eth0", true)
      == Some(ArpEntry("192.168.1.5", "AA:BB:CC:DD:EE:FF"))
  {
    PosixExampleLine();
    assert Octet("192") && Octet("168") && Octet("1") && Octet("5");
    assert IsMacOf("aa:bb:cc:dd:ee:ff", true) && '(' !in "? ";
    PosixLineParses("? ", "192", "168", "1", "5", "aa:bb:cc:dd:ee:ff", " [ether] on eth0");
    UpperMacExample();
  }

  /**
   * The POSIX example line in the pieces PosixLineParses names. Each concatenation
   * of literals is a lemma of its own: together they are too much for one proof.
   */
  lemma PosixExampleLine()
    ensures Quad("192", "168", "1", "5") == "192.168.1.5"
    ensures "? " + "(" + Quad("192", "168", "1", "5") + ") at " + "aa:bb:cc:dd:ee:ff" + " [ether] on eth0"
      == "? (192.168.1.5) at aa:bb:cc:dd:ee:ff [ether] on eth0"
  {
    PosixExampleQuad();
    PosixExampleHead();
    PosixExampleMiddle();
    PosixExampleWhole();
  }

  lemma PosixExampleQuad()
    ensures Quad("192", "168", "1", "5") == "192.168.1.5"
  {
  }

  lemma PosixExampleHead()
    ensures "? " + "(" + "192.168.1.5" == "? (192.168.1.5"
  {
  }

  lemma PosixExampleMiddle()
    ensures "? (192.168.1.5" + ") at " + "aa:bb:cc:dd:ee:ff" == "? (192.168.1.5) at aa:bb:cc:dd:ee:ff"
  {
  }

  lemma PosixExampleWhole()
    ensures "? (192.168.1.5) at aa:bb:cc:dd:ee:ff" + " [ether] on eth0"
      == "? (192.168.1.5) at aa:bb:cc:dd:ee:ff [ether] on eth0"
  {
  }

  /** `  192.168.1.1          aa-bb-cc-dd-ee-ff     dynamic` gives 192.168.1.1 -> AA:BB:CC:DD:EE:FF. */
  lemma OtherExample()
    ensures ParseLine("  192.168.1.1          aa-bb-cc-dd-ee-ff     dynamic", false)
      == Some(ArpEntry("192.168.1.1", "AA:BB:CC:DD:EE:FF"))
  {
    var gap := "          ";
    OtherExampleLine();
    assert Octet("192") && Octet("168") && Octet("1");
    assert IsMacOf("aa-bb-cc-dd-ee-ff", false);
    assert forall k :: 0 <= k < |"  "| ==> !IsDigit("  "[k]);
    assert forall k :: 0 <= k < |gap| ==> IsSpace(gap[k]);
    OtherLineParses("  ", "192", "168", "1", "1", gap, "aa-bb-cc-dd-ee-ff", "     dynamic");
    OtherMacExample();
  }

  /** The non-POSIX example line in the pieces OtherLineParses names, one literal concatenation per lemma. */
  lemma OtherExampleLine()
    ensures Quad("192", "168", "1", "1") == "192.168.1.1"
    ensures "  " + Quad("192", "168", "1", "1") + "          " + "aa-bb-cc-dd-ee-ff" + "     dynamic"
      == "  192.168.1.1          aa-bb-cc-dd-ee-ff     dynamic"
  {
    OtherExampleQuad();
    OtherExampleHead();
    OtherExampleMiddle();
    OtherExampleWhole();
  }

  lemma OtherExampleQuad()
    ensures Quad("192", "168", "1", "1") == "192.168.1.1"
  {
  }

  lemma OtherExampleHead()
    ensures "  " + "192.168.1.1" + "          " == "  192.168.1.1          "
  {
  }

  lemma OtherExampleMiddle()
    ensures "  192.168.1.1          " + "aa-bb-cc-dd-ee-ff" == "  192.168.1.1          aa-bb-cc-dd-ee-ff"
  {
  }

  lemma OtherExampleWhole()
    ensures "  192.168.1.1          aa-bb-cc-dd-ee-ff" + "     dynamic"
      == "  192.168.1.1          aa-bb-cc-dd-ee-ff     dynamic"
  {
  }
}
