/**
 * The text side of `Nginx`: how `modifyConfig` turns the file into the
 * string its edit receives, and the three edits themselves: inserting an
 * `upstream` block, deleting one, and retargeting `proxy_pass` directives.
 *
 * `%n` in the source's format strings is taken to be `"\n"`. The two regular
 * expressions are specified directly on strings, for group and host names
 * that are plain tokens (`PlainName`), in which no character is special to
 * the regex engine or in a replacement string.
 */
module NginxText {
  import opened Options
  import opened Text

  // ---------------------------------------------------------------------
  // Reading the file line by line
  // ---------------------------------------------------------------------

  /** A character that ends a line for `BufferedReader.readLine`. */
  predicate IsBreak(c: char) {
    c == '\n' || c == '\r'
  }

  /** The index of the first line break at or after `from`, or `|s|`. */
  function LineEnd(s: string, from: nat): (j: nat)
    requires from <= |s|
    decreases |s| - from
    ensures from <= j <= |s|
    ensures j < |s| ==> IsBreak(s[j])
  {
    if from == |s| || IsBreak(s[from]) then from else LineEnd(s, from + 1)
  }

  /** A line holds no break. */
  lemma {:induction false} LineEndFirst(s: string, from: nat)
    requires from <= |s|
    ensures forall k :: from <= k < LineEnd(s, from) ==> !IsBreak(s[k])
    decreases |s| - from
  {
    if from < |s| && !IsBreak(s[from]) {
      LineEndFirst(s, from + 1);
    }
  }

  /**
   * Where reading resumes after a line that stops at `j`: past the break,
   * where `"\r\n"` is one break.
   */
  function Resume(s: string, j: nat): (k: nat)
    requires j <= |s|
    ensures j < k <= |s| || k == j == |s|
  {
    if j == |s| then j
    else if s[j] == '\r' && j + 1 < |s| && s[j + 1] == '\n' then j + 2
    else j + 1
  }

  /**
   * The lines successive `readLine` calls return, starting at index `from`:
   * the text up to each break, without it; a last line without a break is
   * returned too, and an empty rest yields no line.
   */
  function LinesFrom(s: string, from: nat): seq<string>
    requires from <= |s|
    decreases |s| - from
  {
    if from == |s| then []
    else
      var j := LineEnd(s, from);
      [s[from..j]] + LinesFrom(s, Resume(s, j))
  }

  function Lines(s: string): seq<string> {
    LinesFrom(s, 0)
  }

  /** The lines appended to the `StringBuilder`, each followed by `"\n"`. */
  function Joined(lines: seq<string>): string {
    if lines == [] then "" else lines[0] + "\n" + Joined(lines[1..])
  }

  lemma {:induction false} JoinedSnoc(lines: seq<string>, line: string)
    ensures Joined(lines + [line]) == Joined(lines) + line + "\n"
  {
    if lines == [] {
      assert [] + [line] == [line];
    } else {
      assert (lines + [line])[1..] == lines[1..] + [line];
      JoinedSnoc(lines[1..], line);
    }
  }

  /** One more `readLine`: the next line is the one that starts at `pos`. */
  lemma ReadStep(s: string, pos: nat, n: nat)
    requires pos < |s| && n <= |Lines(s)| && LinesFrom(s, pos) == Lines(s)[n..]
    ensures var j := LineEnd(s, pos);
      && n < |Lines(s)|
      && LinesFrom(s, Resume(s, j)) == Lines(s)[n + 1..]
      && Joined(Lines(s)[..n + 1]) == Joined(Lines(s)[..n]) + s[pos..j] + "\n"
  {
    var lines := Lines(s);
    var j := LineEnd(s, pos);
    assert LinesFrom(s, pos) == [s[pos..j]] + LinesFrom(s, Resume(s, j));
    assert lines[n] == s[pos..j];
    assert lines[n + 1..] == lines[n..][1..];
    TakeNext(lines, n);
    JoinedSnoc(lines[..n], s[pos..j]);
  }

  /** Reading stops at the end of the file or at the fault: what was read is `ReadText`. */
  lemma ReadStop(s: string, pos: nat, n: nat, fault: Option<nat>)
    requires pos <= |s| && n <= |Lines(s)| && LinesFrom(s, pos) == Lines(s)[n..]
    requires fault.Some? ==> n <= fault.value
    requires pos == |s| || (fault.Some? && n == fault.value)
    ensures Joined(Lines(s)[..n]) == ReadText(s, fault)
  {
    var lines := Lines(s);
    if pos == |s| {
      assert lines[n..] == [];
      assert lines[..n] == lines;
    } else {
      assert lines[n..] != [];
    }
  }

  /** The lines read before the reader throws, if it throws after `fault` lines. */
  function Received(lines: seq<string>, fault: Option<nat>): (r: seq<string>)
    ensures r <= lines
    ensures fault.None? ==> r == lines
    ensures fault.Some? ==> |r| == if fault.value < |lines| then fault.value else |lines|
  {
    if fault.None? || fault.value >= |lines| then lines else lines[..fault.value]
  }

  /** The text `modifyConfig` hands to its edit. */
  function ReadText(file: string, fault: Option<nat>): string {
    Joined(Received(Lines(file), fault))
  }

  /** A text ending in a newline, as `t` is or with one appended. */
  function Completed(t: string): string {
    if t == [] || t[|t| - 1] == '\n' then t else t + "\n"
  }

  predicate NoCarriageReturn(s: string) {
    '\r' !in s
  }

  /**
   * Reading a file without carriage returns and joining its lines gives the
   * file back, with a final newline added when it lacked one.
   */
  lemma ReadWholeFile(file: string)
    requires NoCarriageReturn(file)
    ensures ReadText(file, None) == Completed(file)
  {
    JoinedLinesFrom(file, 0);
    assert file[0..] == file;
  }

  lemma {:induction false} JoinedLinesFrom(s: string, from: nat)
    requires from <= |s| && NoCarriageReturn(s)
    ensures Joined(LinesFrom(s, from)) == Completed(s[from..])
    decreases |s| - from
  {
    if from == |s| {
      assert LinesFrom(s, from) == [] && s[from..] == [];
    } else {
      var j := LineEnd(s, from);
      if j < |s| {
        JoinedLinesFrom(s, j + 1);
      }
      JoinedLine(s, from, j);
    }
  }

  /** One line of the round trip: the last one, or one ending in `"\n"`. */
  lemma JoinedLine(s: string, from: nat, j: nat)
    requires from < |s| && NoCarriageReturn(s) && j == LineEnd(s, from)
    requires j < |s| ==> Joined(LinesFrom(s, j + 1)) == Completed(s[j + 1..])
    ensures Joined(LinesFrom(s, from)) == Completed(s[from..])
  {
    if j == |s| {
      JoinedLastLine(s, from);
    } else {
      assert s[j] in s;
      JoinedNextLine(s, from, j);
    }
  }

  lemma JoinedLastLine(s: string, from: nat)
    requires from < |s| && LineEnd(s, from) == |s|
    ensures Joined(LinesFrom(s, from)) == Completed(s[from..])
  {
    LineEndFirst(s, from);
    assert !IsBreak(s[|s| - 1]);
    assert LinesFrom(s, from) == [s[from..|s|]] + LinesFrom(s, |s|);
    assert s[from..|s|] == s[from..];
    LastStep(LinesFrom(s, from), s[from..]);
  }

  /** A last line without a break is joined with a newline added. */
  lemma LastStep(lines: seq<string>, line: string)
    requires lines == [line] && line != [] && line[|line| - 1] != '\n'
    ensures Joined(lines) == Completed(line)
  {
    JoinedCons(line, []);
  }

  lemma JoinedNextLine(s: string, from: nat, j: nat)
    requires from < |s| && j == LineEnd(s, from) && j < |s| && s[j] == '\n'
    requires Joined(LinesFrom(s, j + 1)) == Completed(s[j + 1..])
    ensures Joined(LinesFrom(s, from)) == Completed(s[from..])
  {
    assert Resume(s, j) == j + 1;
    assert LinesFrom(s, from) == [s[from..j]] + LinesFrom(s, j + 1);
    assert s[from..] == (s[from..j] + "\n") + s[j + 1..];
    JoinStep(LinesFrom(s, from), s[from..j], LinesFrom(s, j + 1), s[j + 1..], s[from..]);
  }

  /** Joining a first line and the rest, where the rest joins to a completed text. */
  lemma JoinStep(lines: seq<string>, line: string, rest: seq<string>, t: string, whole: string)
    requires lines == [line] + rest && Joined(rest) == Completed(t)
    requires whole == (line + "\n") + t
    ensures Joined(lines) == Completed(whole)
  {
    JoinedCons(line, rest);
    CompletedAfterNewline(line + "\n", t);
  }

  lemma JoinedCons(line: string, rest: seq<string>)
    ensures Joined([line] + rest) == line + "\n" + Joined(rest)
  {
    assert ([line] + rest)[1..] == rest;
  }

  lemma CompletedAfterNewline(p: string, t: string)
    requires p != [] && p[|p| - 1] == '\n'
    ensures Completed(p + t) == p + Completed(t)
  {
    if t == [] {
      assert p + t == p;
    } else {
      assert (p + t)[|p + t| - 1] == t[|t| - 1];
    }
  }

  // ---------------------------------------------------------------------
  // Names spliced into the patterns
  // ---------------------------------------------------------------------

  predicate NameChar(c: char) {
    ('a' <= c <= 'z') || ('A' <= c <= 'Z') || ('0' <= c <= '9') || c == '-' || c == '_' || c == ':'
  }

  /**
   * A `host[:port]` or group token: letters, digits, `-`, `_` and `:`. No
   * such character is special in a regular expression or a replacement.
   */
  predicate PlainName(n: string) {
    n != [] && forall k :: 0 <= k < |n| ==> NameChar(n[k])
  }

  // ---------------------------------------------------------------------
  // addServerGroup
  // ---------------------------------------------------------------------

  /** The text every new upstream block is inserted before. */
  const Anchor := "server {"

  /** One `server a;` line per address, in list order. */
  function ServerLines(servers: seq<string>): string {
    if servers == [] then "" else "    server " + servers[0] + ";\n" + ServerLines(servers[1..])
  }

  /** What each `"server {"` is replaced with. */
  function UpstreamBlock(group: string, servers: seq<string>): string {
    "upstream " + group + " {\n" + ServerLines(servers) + "  }\n\n  server {"
  }

  /** The edit `addServerGroup` applies: `in.replace("server {", block)`. */
  function AddUpstream(text: string, group: string, servers: seq<string>): string {
    ReplaceAll(text, Anchor, UpstreamBlock(group, servers))
  }

  /** The block still ends with the anchor it replaced. */
  lemma UpstreamBlockEndsWithAnchor(group: string, servers: seq<string>)
    ensures var b := UpstreamBlock(group, servers);
      |b| >= |Anchor| && b[|b| - |Anchor|..] == Anchor
  {
    var b := UpstreamBlock(group, servers);
    assert b == ("upstream " + group + " {\n" + ServerLines(servers) + "  }\n\n  ") + Anchor;
  }

  /** Without an anchor the text is left as it is. */
  lemma AddUpstreamAbsent(text: string, group: string, servers: seq<string>)
    requires !Contains(text, Anchor)
    ensures AddUpstream(text, group, servers) == text
  {
    ReplaceAllAbsent(text, Anchor, UpstreamBlock(group, servers));
  }

  /**
   * The text up to the first anchor is kept, the anchor becomes the block,
   * and the rest of the text is edited the same way.
   */
  lemma AddUpstreamFirst(text: string, group: string, servers: seq<string>, k: nat)
    requires Find(text, Anchor, 0) == Some(k)
    ensures AddUpstream(text, group, servers)
      == text[..k] + UpstreamBlock(group, servers) + AddUpstream(text[k + |Anchor|..], group, servers)
  {
    ReplaceAllFirst(text, Anchor, UpstreamBlock(group, servers), k);
  }

  /**
   * When the inserted block holds the anchor once (its own trailing
   * `server {`), the number of anchors is unchanged.
   */
  lemma AddUpstreamCount(text: string, group: string, servers: seq<string>)
    requires Count(UpstreamBlock(group, servers), Anchor) == 1
    ensures Count(AddUpstream(text, group, servers), Anchor) == Count(text, Anchor)
  {
    var b := UpstreamBlock(group, servers);
    UpstreamBlockEndsWithAnchor(group, servers);
    assert b[0] == 'u';
    CountReplaceAll(text, Anchor, b);
  }

  // ---------------------------------------------------------------------
  // removeServerGroup, first cycle
  // ---------------------------------------------------------------------

  /** The literal start of the pattern `(?s)\nupstream g \{.+?\}\n`. */
  function Opening(group: string): string {
    "\nupstream " + group + " {"
  }

  /** The literal end of that pattern. */
  const Closing := "}\n"

  /**
   * The end of the match of `(?s)\nupstream g \{.+?\}\n` that starts at
   * `i`, if one does: after the opening at least one character of any kind,
   * then the first `"}\n"` from there on (the lazy `.+?`).
   */
  function BlockAt(s: string, group: string, i: nat): (r: Option<nat>)
    ensures r.Some? ==> OccursAt(s, Opening(group), i)
    ensures r.Some? ==> i + |Opening(group)| + 1 + |Closing| <= r.value <= |s|
    ensures r.Some? ==> OccursAt(s, Closing, r.value - |Closing|)
    ensures r.Some? ==> forall j :: i + |Opening(group)| + 1 <= j < r.value - |Closing| ==> !OccursAt(s, Closing, j)
    ensures r.None? ==>
              || !OccursAt(s, Opening(group), i)
              || forall j :: i + |Opening(group)| + 1 <= j ==> !OccursAt(s, Closing, j)
  {
    if OccursAt(s, Opening(group), i) then
      match Find(s, Closing, i + |Opening(group)| + 1)
      case Some(j) => Some(j + |Closing|)
      case None => None
    else None
  }

  /** The leftmost match at or after `from`, as its start and end. */
  function FirstBlock(s: string, group: string, from: nat): (r: Option<(nat, nat)>)
    decreases |s| - from
    ensures r.Some? ==> from <= r.value.0 && BlockAt(s, group, r.value.0) == Some(r.value.1)
    ensures r.Some? ==> forall i :: from <= i < r.value.0 ==> BlockAt(s, group, i).None?
    ensures r.None? ==> forall i :: from <= i ==> BlockAt(s, group, i).None?
  {
    if from > |s| then None
    else match BlockAt(s, group, from)
      case Some(e) => Some((from, e))
      case None => FirstBlock(s, group, from + 1)
  }

  /** The edit `removeServerGroup` applies first: `replaceFirst(pattern, "")`. */
  function RemoveUpstream(s: string, group: string): string {
    match FirstBlock(s, group, 0)
    case None => s
    case Some((i, e)) => s[..i] + s[e..]
  }

  /**
   * The leftmost block, from the newline before `upstream g {` through the
   * first `"}\n"` after it, is cut out; the text around it is kept.
   */
  lemma RemoveUpstreamBlock(s: string, group: string, i: nat, e: nat)
    requires BlockAt(s, group, i) == Some(e)
    requires forall i' :: 0 <= i' < i ==> BlockAt(s, group, i').None?
    ensures RemoveUpstream(s, group) == s[..i] + s[e..]
    ensures s == s[..i] + Opening(group) + s[i + |Opening(group)|..e - |Closing|] + Closing + s[e..]
    ensures i + |Opening(group)| < e - |Closing|
  {
    FirstBlockAt(s, group, 0, i, e);
    BlockShape(s, group, i, e);
  }

  lemma BlockShape(s: string, group: string, i: nat, e: nat)
    requires BlockAt(s, group, i) == Some(e)
    ensures s == s[..i] + Opening(group) + s[i + |Opening(group)|..e - |Closing|] + Closing + s[e..]
    ensures i + |Opening(group)| < e - |Closing|
  {
    var o := i + |Opening(group)|;
    var c := e - |Closing|;
    assert s[i..o] == Opening(group);
    assert s[c..e] == Closing;
    FivePieces(s, i, o, c, e);
  }

  lemma FivePieces(s: string, a: nat, b: nat, c: nat, d: nat)
    requires a <= b <= c <= d <= |s|
    ensures s == s[..a] + s[a..b] + s[b..c] + s[c..d] + s[d..]
  {
    assert s[..b] == s[..a] + s[a..b];
    assert s[..c] == s[..b] + s[b..c];
    assert s[..d] == s[..c] + s[c..d];
    assert s == s[..d] + s[d..];
  }

  lemma {:induction false} FirstBlockAt(s: string, group: string, from: nat, i: nat, e: nat)
    requires from <= i && BlockAt(s, group, i) == Some(e)
    requires forall i' :: from <= i' < i ==> BlockAt(s, group, i').None?
    ensures FirstBlock(s, group, from) == Some((i, e))
    decreases i - from
  {
    if from < i {
      FirstBlockAt(s, group, from + 1, i, e);
    }
  }

  /** Without a block of the group anywhere, nothing is removed. */
  lemma RemoveUpstreamAbsent(s: string, group: string)
    requires forall i :: BlockAt(s, group, i).None?
    ensures RemoveUpstream(s, group) == s
  {
    var r := FirstBlock(s, group, 0);
    if r.Some? {
      assert false;
    }
  }

  /** A text without the opening of the group, or without any `"}\n"`, has no block. */
  lemma NoBlockWithout(s: string, group: string)
    requires !Contains(s, Opening(group)) || !Contains(s, Closing)
    ensures forall i :: BlockAt(s, group, i).None?
  {
    forall i ensures BlockAt(s, group, i).None? {
      if BlockAt(s, group, i).Some? {
        BlockContains(s, group, i, BlockAt(s, group, i).value);
        assert false;
      }
    }
  }

  lemma BlockContains(s: string, group: string, i: nat, e: nat)
    requires BlockAt(s, group, i) == Some(e)
    ensures Contains(s, Opening(group)) && Contains(s, Closing)
  {
    assert OccursAt(s, Opening(group), i);
    assert OccursAt(s, Closing, e - |Closing|);
  }

  // ---------------------------------------------------------------------
  // replaceProxyPass
  // ---------------------------------------------------------------------

  /** `\s` of a Java regular expression. */
  predicate IsSpace(c: char) {
    c == ' ' || c == '\t' || c == '\n' || c == '\U{000B}' || c == '\U{000C}' || c == '\r'
  }

  const Keyword := "proxy_pass"

  /** What a directive names after its whitespace. */
  function Target(name: string): string {
    "http://" + name + ";"
  }

  /** The replacement `proxy_pass http://r;`, with exactly one space. */
  function Directive(name: string): string {
    Keyword + " " + Target(name)
  }

  /** The end of the run of whitespace that starts at `from`. */
  function SpaceEnd(s: string, from: nat): (k: nat)
    requires from <= |s|
    decreases |s| - from
    ensures from <= k <= |s|
    ensures k < |s| ==> !IsSpace(s[k])
    ensures forall j :: from <= j < k ==> IsSpace(s[j])
  {
    if from == |s| || !IsSpace(s[from]) then from else SpaceEnd(s, from + 1)
  }

  /**
   * The length of the match of `proxy_pass\s+http://m;` at the start of
   * `s`, if there is one. The greedy `\s+` never has to give characters
   * back, because what follows it starts with `h`.
   */
  function MatchLen(s: string, m: string): (r: Option<nat>)
    ensures r.Some? ==> |Directive(m)| <= r.value <= |s|
  {
    if |s| > |Keyword| && s[..|Keyword|] == Keyword && IsSpace(s[|Keyword|]) then
      var k := SpaceEnd(s, |Keyword| + 1);
      if OccursAt(s, Target(m), k) then Some(k + |Target(m)|) else None
    else None
  }

  /**
   * The edit `replaceProxyPass(m, r)` applies: `replaceAll` scans left to
   * right, replaces each match by `proxy_pass http://r;` and resumes after it.
   */
  function Retarget(s: string, m: string, r: string): string
    decreases |s|
  {
    if s == [] then []
    else match MatchLen(s, m)
      case Some(e) => Directive(r) + Retarget(s[e..], m, r)
      case None => [s[0]] + Retarget(s[1..], m, r)
  }

  /** No directive in `s` targets `m`. */
  predicate NoDirective(s: string, m: string) {
    forall i :: 0 <= i <= |s| ==> MatchLen(s[i..], m).None?
  }

  /** Every directive in `s` that targets `m` is written `proxy_pass http://m;`. */
  predicate SingleSpaced(s: string, m: string) {
    forall i :: 0 <= i <= |s| && MatchLen(s[i..], m).Some? ==> s[i..][..|Directive(m)|] == Directive(m)
  }

  /** No directive targeting `m` starts before index `j`. */
  predicate NoneBefore(s: string, m: string, j: nat) {
    j <= |s| && forall p :: 0 <= p < j ==> MatchLen(s[p..], m).None?
  }

  /** The first directive targeting `m` at or after `from`. */
  function FirstDirective(s: string, m: string, from: nat): (r: Option<nat>)
    requires from <= |s|
    decreases |s| - from
    ensures r.Some? ==> from <= r.value <= |s|
  {
    if MatchLen(s[from..], m).Some? then Some(from)
    else if from == |s| then None
    else FirstDirective(s, m, from + 1)
  }

  /** `FirstDirective` finds the leftmost directive, or reports that there is none. */
  lemma {:induction false} FirstDirectiveSpec(s: string, m: string, from: nat)
    requires from <= |s|
    decreases |s| - from
    ensures var r := FirstDirective(s, m, from);
      && (r.Some? ==> MatchLen(s[r.value..], m).Some?)
      && (r.Some? ==> forall p :: from <= p < r.value ==> MatchLen(s[p..], m).None?)
      && (r.None? ==> forall p :: from <= p <= |s| ==> MatchLen(s[p..], m).None?)
  {
    if MatchLen(s[from..], m).None? && from < |s| {
      FirstDirectiveSpec(s, m, from + 1);
      var r := FirstDirective(s, m, from + 1);
      assert FirstDirective(s, m, from) == r;
      if r.Some? {
        forall p | from <= p < r.value ensures MatchLen(s[p..], m).None? {
          if p == from {
          }
        }
      } else {
        forall p | from <= p <= |s| ensures MatchLen(s[p..], m).None? {
          if p == from {
          }
        }
      }
    }
  }

  lemma KeywordChars()
    ensures forall j :: 0 <= j < |Keyword| ==> Keyword[j] != ';' && !IsSpace(Keyword[j])
    ensures forall j :: 0 < j < |Keyword| ==> Keyword[j] != 'p' || Keyword[j + 1] != 'r'
  {
  }

  lemma TargetChars(name: string)
    requires PlainName(name)
    ensures Target(name)[0] == 'h'
    ensures forall j :: 0 <= j < |Target(name)| ==> !IsSpace(Target(name)[j])
    ensures forall j :: 0 <= j < |Target(name)| - 1 ==> Target(name)[j] != ';'
    ensures Target(name)[|Target(name)| - 1] == ';'
  {
    var t := Target(name);
    forall j | 0 <= j < |t| ensures !IsSpace(t[j]) && (j < |t| - 1 ==> t[j] != ';') {
      if 7 <= j < 7 + |name| {
        assert t[j] == name[j - 7];
      }
    }
  }

  /** The parts of a match: keyword, whitespace run, target. */
  lemma MatchShape(x: string, m: string)
    requires MatchLen(x, m).Some?
    ensures var k := SpaceEnd(x, |Keyword| + 1);
      && x[..|Keyword|] == Keyword && IsSpace(x[|Keyword|])
      && MatchLen(x, m).value == k + |Target(m)|
      && x[k..k + |Target(m)|] == Target(m)
  {
  }

  lemma {:induction false} SpaceEndAgree(x: string, y: string, from: nat, k: nat)
    requires from <= k < |x| && k < |y| && SpaceEnd(x, from) == k
    requires forall j :: from <= j <= k ==> x[j] == y[j]
    ensures SpaceEnd(y, from) == k
    decreases k - from
  {
    if from < k {
      SpaceEndAgree(x, y, from + 1, k);
    }
  }

  /** A match depends only on the characters it spans. */
  lemma MatchPrefix(x: string, y: string, m: string, len: nat)
    requires MatchLen(x, m) == Some(len) && len <= |y| && x[..len] == y[..len]
    ensures MatchLen(y, m) == Some(len)
  {
    var n := |Keyword|;
    var k := SpaceEnd(x, n + 1);
    MatchShape(x, m);
    assert x[k] == 'h';
    forall j | 0 <= j < len ensures x[j] == y[j] {
      assert x[..len][j] == y[..len][j];
    }
    assert y[..n] == x[..n];
    SpaceEndAgree(x, y, n + 1, k);
    assert y[k..k + |Target(m)|] == x[k..k + |Target(m)|];
  }

  /** `Target(m)` starts `Target(r)` (followed by anything) only when `m == r`. */
  lemma TargetsDiffer(m: string, r: string, t: string)
    requires PlainName(m) && PlainName(r) && m != r
    ensures !(|Target(m)| <= |Target(r) + t| && (Target(r) + t)[..|Target(m)|] == Target(m))
  {
    var x := Target(r) + t;
    if |Target(m)| <= |x| {
      if |m| == |r| {
        assert x[..|Target(m)|] == Target(r);
        assert Target(r)[7..7 + |r|] == r && Target(m)[7..7 + |m|] == m;
      } else if |m| < |r| {
        var p := 7 + |m|;
        assert x[p] == r[|m|] && NameChar(r[|m|]);
        assert Target(m)[p] == ';';
      } else {
        var p := 7 + |r|;
        assert x[p] == ';';
        assert Target(m)[p] == m[|r|] && NameChar(m[|r|]);
      }
    }
  }

  /** A replacement directive is a match for `m` exactly when it names `m`. */
  lemma DirectiveMatch(r: string, t: string, m: string)
    requires PlainName(r) && PlainName(m)
    ensures MatchLen(Directive(r) + t, m) == if m == r then Some(|Directive(r)|) else None
  {
    var x := Directive(r) + t;
    var n := |Keyword|;
    assert x[..n] == Keyword && x[n] == ' ';
    TargetChars(r);
    assert x[n + 1] == Target(r)[0] == 'h';
    assert SpaceEnd(x, n + 1) == n + 1;
    assert x[n + 1..] == Target(r) + t;
    if m != r {
      TargetsDiffer(m, r, t);
      assert !OccursAt(x, Target(m), n + 1);
    } else {
      assert x[n + 1..n + 1 + |Target(m)|] == Target(r);
    }
  }

  /** No match for any name starts strictly inside a replacement directive. */
  lemma InsideDirective(r: string, t: string, m: string, i: nat)
    requires PlainName(r) && 0 < i < |Directive(r)|
    ensures MatchLen((Directive(r) + t)[i..], m).None?
  {
    var d := Directive(r);
    var x := (d + t)[i..];
    var n := |Keyword|;
    TargetChars(r);
    KeywordChars();
    if i + n < |d| {
      assert x[n] == d[i + n] == Target(r)[i + n - (n + 1)];
      assert !IsSpace(x[n]);
    } else {
      var p := |d| - 1 - i;
      assert x[p] == d[|d| - 1] == Target(r)[|Target(r)| - 1] == ';';
      assert |x| > n ==> x[..n][p] != Keyword[p];
    }
  }

  /**
   * A match that starts before a replacement directive ends before it: the
   * directive's space and `;` cannot fall inside the match's target.
   */
  lemma MatchBeforeDirective(x: string, m: string, r: string, q: nat)
    requires PlainName(m) && PlainName(r)
    requires 0 < q && q + |Directive(r)| <= |x| && x[q..q + |Directive(r)|] == Directive(r)
    ensures MatchLen(x, m).None? || MatchLen(x, m).value <= q
  {
    var d := Directive(r);
    var n := |Keyword|;
    KeywordChars();
    assert x[q] == d[0] == 'p' && x[q + 1] == d[1] == 'r';
    if q < n {
      assert x[..n][q] != Keyword[q] || x[..n][q + 1] != Keyword[q + 1];
    } else if MatchLen(x, m).Some? {
      var len := MatchLen(x, m).value;
      var k := SpaceEnd(x, n + 1);
      var tm := Target(m);
      TargetChars(m);
      MatchShape(x, m);
      assert x[k..len] == tm;
      forall j | k <= j < len ensures !IsSpace(x[j]) && (j < len - 1 ==> x[j] != ';') {
        assert x[j] == tm[j - k];
      }
      assert x[len - 1] == ';';
      assert q >= k;
      assert x[q + n] == d[n] == ' ';
      assert q + n >= len;
      forall j | q <= j < q + n ensures x[j] != ';' {
        assert x[j] == d[j - q] == Keyword[j - q];
      }
      assert len - 1 < q;
    }
  }

  /** Text before the first directive is copied unchanged. */
  lemma {:induction false} RetargetSplit(s: string, m: string, r: string, k: nat)
    requires k <= |s|
    requires forall p :: 0 <= p < k ==> MatchLen(s[p..], m).None?
    ensures Retarget(s, m, r) == s[..k] + Retarget(s[k..], m, r)
    decreases k
  {
    if k == 0 {
      assert s[..0] == [] && s[0..] == s;
    } else {
      assert MatchLen(s[0..], m).None? && s[0..] == s;
      forall p | 0 <= p < k - 1 ensures MatchLen(s[1..][p..], m).None? {
        assert s[1..][p..] == s[p + 1..];
      }
      RetargetSplit(s[1..], m, r, k - 1);
      RetargetCopy(s, m, r);
      assert s[1..][k - 1..] == s[k..];
      assert [s[0]] + s[1..][..k - 1] == s[..k];
      AppendAssoc([s[0]], s[1..][..k - 1], Retarget(s[k..], m, r));
    }
  }

  /** A character where no directive starts is copied. */
  lemma RetargetCopy(s: string, m: string, r: string)
    requires s != [] && MatchLen(s, m).None?
    ensures Retarget(s, m, r) == [s[0]] + Retarget(s[1..], m, r)
  {
  }

  /**
   * The first directive targeting `m` becomes `proxy_pass http://r;`, the
   * text before it is kept, and scanning resumes after it.
   */
  lemma RetargetFirst(s: string, m: string, r: string, j: nat, e: nat)
    requires j <= |s| && MatchLen(s[j..], m) == Some(e)
    requires NoneBefore(s, m, j)
    ensures Retarget(s, m, r) == s[..j] + Directive(r) + Retarget(s[j + e..], m, r)
  {
    RetargetSplit(s, m, r, j);
    assert s[j..][e..] == s[j + e..];
  }

  /**
   * Copying the first character of `s` cannot make a directive for `n` start
   * there after the rest of `s` is retargeted, when `s` had none there.
   */
  lemma HeadClean(s: string, m: string, r: string, n: string)
    requires PlainName(m) && PlainName(r) && PlainName(n)
    requires s != [] && MatchLen(s, n).None?
    ensures MatchLen([s[0]] + Retarget(s[1..], m, r), n).None?
  {
    var t := s[1..];
    FirstDirectiveSpec(t, m, 0);
    match FirstDirective(t, m, 0)
    case None =>
      RetargetSplit(t, m, r, |t|);
      assert t[..|t|] == t && t[|t|..] == [];
      assert Retarget(t[|t|..], m, r) == [];
      assert Retarget(t, m, r) == t;
      assert [s[0]] + Retarget(t, m, r) == s;
    case Some(j) =>
      HeadCleanBefore(s, m, r, n, j);
  }

  lemma HeadCleanBefore(s: string, m: string, r: string, n: string, j: nat)
    requires PlainName(m) && PlainName(r) && PlainName(n)
    requires s != [] && MatchLen(s, n).None?
    requires j <= |s[1..]| && MatchLen(s[1..][j..], m).Some?
    requires NoneBefore(s[1..], m, j)
    ensures MatchLen([s[0]] + Retarget(s[1..], m, r), n).None?
  {
    CopyThenDirective(s, m, r, j);
    MatchStopsBefore([s[0]] + Retarget(s[1..], m, r), s, n, r, j + 1);
  }

  /**
   * After the first character of `s`, retargeting copies the rest of `s` up
   * to its first directive and then writes the replacement directive.
   */
  lemma CopyThenDirective(s: string, m: string, r: string, j: nat)
    requires s != [] && j <= |s[1..]| && MatchLen(s[1..][j..], m).Some?
    requires NoneBefore(s[1..], m, j)
    ensures var x := [s[0]] + Retarget(s[1..], m, r);
      && j + 1 + |Directive(r)| <= |x|
      && x[..j + 1] == s[..j + 1]
      && x[j + 1..j + 1 + |Directive(r)|] == Directive(r)
  {
    var t := s[1..];
    var e := MatchLen(t[j..], m).value;
    RetargetFirst(t, m, r, j, e);
    PrefixThenBlock(s, j, Directive(r), Retarget(t[j + e..], m, r), [s[0]] + Retarget(t, m, r));
  }

  lemma PrefixThenBlock(s: string, j: nat, d: string, rest: string, y: string)
    requires j < |s| && y == [s[0]] + (s[1..][..j] + d + rest)
    ensures && j + 1 + |d| <= |y|
      && y[..j + 1] == s[..j + 1]
      && y[j + 1..j + 1 + |d|] == d
  {
    assert [s[0]] + s[1..][..j] == s[..j + 1];
    AppendAssoc([s[0]], s[1..][..j] + d, rest);
    AppendAssoc([s[0]], s[1..][..j], d);
    assert y == s[..j + 1] + d + rest;
  }

  /**
   * A text that agrees with `s` up to `q` and continues there with a
   * replacement directive has a match at its start only if `s` has.
   */
  lemma MatchStopsBefore(x: string, s: string, n: string, r: string, q: nat)
    requires PlainName(n) && PlainName(r)
    requires 0 < q <= |s| && q <= |x| && x[..q] == s[..q]
    requires q + |Directive(r)| <= |x| && x[q..q + |Directive(r)|] == Directive(r)
    requires MatchLen(s, n).None?
    ensures MatchLen(x, n).None?
  {
    MatchBeforeDirective(x, n, r, q);
    if MatchLen(x, n).Some? {
      var len := MatchLen(x, n).value;
      assert x[..len] == x[..q][..len] == s[..q][..len] == s[..len];
      MatchPrefix(x, s, n, len);
      assert false;
    }
  }

  lemma NoDirectiveShift(s: string, m: string, k: nat)
    requires k <= |s| && NoDirective(s, m)
    ensures NoDirective(s[k..], m)
  {
    forall i | 0 <= i <= |s[k..]| ensures MatchLen(s[k..][i..], m).None? {
      assert s[k..][i..] == s[k + i..];
    }
  }

  lemma SingleSpacedShift(s: string, m: string, k: nat)
    requires k <= |s| && SingleSpaced(s, m)
    ensures SingleSpaced(s[k..], m)
  {
    forall i | 0 <= i <= |s[k..]| && MatchLen(s[k..][i..], m).Some?
      ensures s[k..][i..][..|Directive(m)|] == Directive(m)
    {
      assert s[k..][i..] == s[k + i..];
    }
  }

  /** Without a directive for `m` the text is left as it is. */
  lemma {:induction false} RetargetUnchanged(s: string, m: string, r: string)
    requires NoDirective(s, m)
    ensures Retarget(s, m, r) == s
    decreases |s|
  {
    if s != [] {
      assert s[0..] == s;
      NoDirectiveShift(s, m, 1);
      RetargetUnchanged(s[1..], m, r);
    }
  }

  /** For `m != r`, no directive targeting `m` is left. */
  lemma {:induction false} RetargetLeavesNone(s: string, m: string, r: string)
    requires PlainName(m) && PlainName(r) && m != r
    ensures NoDirective(Retarget(s, m, r), m)
    decreases |s|
  {
    var out := Retarget(s, m, r);
    if s == [] {
      assert out[0..] == [];
    } else {
      match MatchLen(s, m)
      case Some(e) =>
        var d := Directive(r);
        var t := Retarget(s[e..], m, r);
        RetargetLeavesNone(s[e..], m, r);
        forall i | 0 <= i <= |out| ensures MatchLen(out[i..], m).None? {
          if i == 0 {
            DirectiveMatch(r, t, m);
            assert out[0..] == d + t;
          } else if i < |d| {
            InsideDirective(r, t, m, i);
          } else {
            assert out[i..] == t[i - |d|..];
          }
        }
      case None =>
        var t := Retarget(s[1..], m, r);
        RetargetLeavesNone(s[1..], m, r);
        forall i | 0 <= i <= |out| ensures MatchLen(out[i..], m).None? {
          if i == 0 {
            HeadClean(s, m, r, m);
            assert out[0..] == out;
          } else {
            assert out[i..] == t[i - 1..];
          }
        }
    }
  }

  /** Retargeting twice is retargeting once. */
  lemma RetargetIdempotent(s: string, m: string, r: string)
    requires PlainName(m) && PlainName(r)
    ensures Retarget(Retarget(s, m, r), m, r) == Retarget(s, m, r)
  {
    if m == r {
      RetargetSelf(s, m);
    } else {
      RetargetLeavesNone(s, m, r);
      RetargetUnchanged(Retarget(s, m, r), m, r);
    }
  }

  /**
   * Retargeting `m` to itself writes every directive in one-space form, and
   * a second pass rewrites each of those to itself.
   */
  lemma {:induction false} RetargetSelf(s: string, m: string)
    requires PlainName(m)
    ensures Retarget(Retarget(s, m, m), m, m) == Retarget(s, m, m)
    decreases |s|
  {
    if s != [] {
      var out := Retarget(s, m, m);
      match MatchLen(s, m)
      case Some(e) =>
        var d := Directive(m);
        var t := Retarget(s[e..], m, m);
        DirectiveMatch(m, t, m);
        assert out[|d|..] == t;
        RetargetSelf(s[e..], m);
      case None =>
        var t := Retarget(s[1..], m, m);
        HeadClean(s, m, m, m);
        assert out[1..] == t;
        RetargetSelf(s[1..], m);
    }
  }

  /**
   * Retargeting `a` to `b` and then `b` back to `a` restores the text when
   * every `a` directive was written `proxy_pass http://a;` and no directive
   * targeted `b` before.
   */
  lemma {:induction false} RetargetRoundTrip(s: string, a: string, b: string)
    requires PlainName(a) && PlainName(b)
    requires NoDirective(s, b) && SingleSpaced(s, a)
    ensures Retarget(Retarget(s, a, b), b, a) == s
    decreases |s|
  {
    if s != [] {
      var out := Retarget(s, a, b);
      assert s[0..] == s;
      match MatchLen(s, a)
      case Some(e) =>
        var da := Directive(a);
        var db := Directive(b);
        assert s[..|da|] == da;
        assert s == da + s[|da|..];
        DirectiveMatch(a, s[|da|..], a);
        assert e == |da|;
        var t := Retarget(s[e..], a, b);
        assert out == db + t;
        DirectiveMatch(b, t, b);
        assert out[|db|..] == t;
        NoDirectiveShift(s, b, e);
        SingleSpacedShift(s, a, e);
        RetargetRoundTrip(s[e..], a, b);
      case None =>
        var t := Retarget(s[1..], a, b);
        HeadClean(s, a, b, b);
        assert out[1..] == t;
        NoDirectiveShift(s, b, 1);
        SingleSpacedShift(s, a, 1);
        RetargetRoundTrip(s[1..], a, b);
    }
  }
}
