/**
 * The article page's markdown renderer: fenced code blocks are taken out
 * and replaced by numbered placeholders, the rest is HTML-escaped, inline
 * code, headings, bullet lists and paragraphs are turned into tags, and the
 * code blocks come back escaped inside `<pre><code>`. Every regular
 * expression of the renderer is written out as the scan the JavaScript
 * engine performs for it: the leftmost match, the one its greedy or lazy
 * quantifiers select, and the next search starting where a match ended.
 */
module Markdown {
  import opened Wrappers
  import opened JsText

  // ---------------------------------------------------------------------
  // Searching

  /** `s` begins with `p`, compared one character at a time. */
  predicate HasPrefix(s: string, p: string)
    decreases |p|
  {
    p == [] || (s != [] && s[0] == p[0] && HasPrefix(s[1..], p[1..]))
  }

  lemma {:induction false} HasPrefixConcat(p: string, t: string)
    ensures HasPrefix(p + t, p)
    decreases |p|
  {
    if p != [] {
      assert (p + t)[1..] == p[1..] + t;
      HasPrefixConcat(p[1..], t);
    }
  }

  lemma {:induction false} HasPrefixLength(s: string, p: string)
    requires HasPrefix(s, p)
    ensures |p| <= |s|
    decreases |p|
  {
    if p != [] {
      HasPrefixLength(s[1..], p[1..]);
    }
  }

  /** The character-wise prefix test agrees with comparing the slice. */
  lemma {:induction false} HasPrefixIsSlice(s: string, p: string)
    requires |p| <= |s|
    ensures HasPrefix(s, p) <==> s[..|p|] == p
    decreases |p|
  {
    if p != [] {
      HasPrefixIsSlice(s[1..], p[1..]);
      assert s[..|p|] == [s[0]] + s[1..][..|p| - 1];
      assert p == [p[0]] + p[1..];
    }
  }

  predicate OccursAt(s: string, pat: string, k: int) {
    0 <= k && k + |pat| <= |s| && s[k..k + |pat|] == pat
  }

  /** The first occurrence of `pat` in `s` at or after `from`. */
  function IndexOf(s: string, pat: string, from: nat): (r: Option<nat>)
    ensures r.Some? ==> from <= r.value && r.value + |pat| <= |s|
    decreases |s| - from
  {
    if from + |pat| > |s| then None
    else if HasPrefix(s[from..], pat) then Some(from)
    else IndexOf(s, pat, from + 1)
  }

  /** `IndexOf` finds an occurrence, and none lies between `from` and it; without one, there is none at all. */
  lemma {:induction false} IndexOfFirst(s: string, pat: string, from: nat)
    ensures var r := IndexOf(s, pat, from);
      && (r.Some? ==> OccursAt(s, pat, r.value))
      && (r.Some? ==> forall k :: from <= k < r.value ==> !OccursAt(s, pat, k))
      && (r.None? ==> forall k :: from <= k ==> !OccursAt(s, pat, k))
    decreases |s| - from
  {
    if from + |pat| <= |s| {
      HasPrefixIsSlice(s[from..], pat);
      assert s[from..][..|pat|] == s[from..from + |pat|];
      if !HasPrefix(s[from..], pat) {
        IndexOfFirst(s, pat, from + 1);
      }
    }
  }

  /** The length of the longest prefix of `s` made of characters satisfying `p`. */
  function SpanOf(s: string, p: char -> bool): (n: nat)
    ensures n <= |s|
    ensures forall k :: 0 <= k < n ==> p(s[k])
    ensures n < |s| ==> !p(s[n])
  {
    if s == [] || !p(s[0]) then 0 else 1 + SpanOf(s[1..], p)
  }

  predicate NotLineTerminator(c: char) { !IsLineTerminator(c) }

  predicate IsDecimal(c: char) { IsDigitIn(c, 10) }

  predicate IsBlank(c: char) { c == ' ' }

  predicate IsNewline(c: char) { c == '\n' }

  // ---------------------------------------------------------------------
  // Fenced code blocks: /```([\s\S]*?)```/g with a callback that pushes
  // each block's contents onto `codeBlocks` and returns its placeholder

  const Fence: string := "```"

  const Marker: string := "@@CODEBLOCK"

  /** `@@CODEBLOCK{k}@@`. */
  function Placeholder(k: nat): string {
    Marker + NumberToString(k, 10) + "@@"
  }

  datatype Extracted = Extracted(text: string, blocks: seq<string>)

  /** A fenced block: the opening fence at `open`, the closing one at `close`. */
  datatype Block = Block(open: nat, close: nat)

  /** The leftmost fence and the nearest fence after it, if both exist. */
  function NextFence(s: string): (r: Option<Block>)
    ensures r.Some? ==> r.value.open + 3 <= r.value.close && r.value.close + 3 <= |s|
  {
    match IndexOf(s, Fence, 0)
    case None => None
    case Some(p) =>
      match IndexOf(s, Fence, p + 3)
      case None => None
      case Some(q) => Some(Block(p, q))
  }

  /**
   * The text of the fence replacement: each block found in `rest` gives way
   * to a placeholder, numbered from `n` on in the order the blocks appear.
   */
  function FenceText(n: nat, rest: string): string
    decreases |rest|
  {
    match NextFence(rest)
    case None => rest
    case Some(b) => rest[..b.open] + (Placeholder(n) + FenceText(n + 1, rest[b.close + 3..]))
  }

  /** The contents of the blocks found in `rest`, in the order they appear. */
  function FenceBlocks(rest: string): seq<string>
    decreases |rest|
  {
    match NextFence(rest)
    case None => []
    case Some(b) => [rest[b.open + 3..b.close]] + FenceBlocks(rest[b.close + 3..])
  }

  /** The text with every fenced block replaced by its placeholder, and the blocks' contents in order. */
  function ExtractFences(s: string): Extracted {
    Extracted(FenceText(0, s), FenceBlocks(s))
  }

  /** A character that no step before the restore treats specially. */
  predicate PassChar(c: char) {
    c != '`' && c != '&' && c != '<' && c != '>' && !IsLineTerminator(c)
  }

  /** One line that the passes before the restore leave alone: not starting like a heading or an item, no white space at its ends. */
  predicate PassLine(s: string) {
    && s != []
    && (forall k :: 0 <= k < |s| ==> PassChar(s[k]))
    && s[0] != '#' && s[0] != '-'
    && !IsSpace(s[0]) && !IsSpace(s[|s| - 1])
  }

  /** One line of plain text: it also holds no `@`, so no placeholder either. */
  predicate PlainLine(s: string) {
    PassLine(s) && '@' !in s
  }

  lemma NoFenceInPlain(s: string)
    requires '`' !in s
    ensures NextFence(s).None?
  {
    forall k: nat | k + 3 <= |s| ensures !OccursAt(s, Fence, k) {
      assert s[k..k + 3][0] == s[k];
    }
    IndexOfFirst(s, Fence, 0);
  }

  lemma PlainHasNo(s: string)
    requires PassLine(s)
    ensures '`' !in s && '&' !in s && '<' !in s && '>' !in s && '\n' !in s
    ensures NoLineBreak(s)
  {
    forall k | 0 <= k < |s| ensures PassChar(s[k]) {
    }
  }

  /** The passes before the paragraph step leave such a line as it is. */
  lemma PlainPasses(s: string)
    requires PassLine(s)
    ensures ListFrom(Headings(InlineCode(EscapeHtml(s))), 0) == s
  {
    PlainHasNo(s);
    assert EscapeHtml(s) == s by {
      ReplaceCharAbsent(s, '&', "&amp;");
      ReplaceCharAbsent(s, '<', "&lt;");
      ReplaceCharAbsent(s, '>', "&gt;");
    }
    assert InlineCode(s) == s by {
      InlineCodeNone(s);
    }
    assert Headings(s) == s by {
      HeadingPassesBelow(s, 6);
    }
    ListFromUnchanged(s, 0);
    assert s[0..] == s;
  }

  /** Such a line is one paragraph. */
  lemma PlainParagraphs(s: string)
    requires PassLine(s)
    ensures Paragraphs(s) == "<p>" + s + "</p>"
  {
    PlainHasNo(s);
    forall k: int ensures !OccursAt(s, "\n\n", k) {
      if 0 <= k && k + 2 <= |s| {
        assert s[k..k + 2][0] == s[k];
      }
    }
    SplitSingle(s);
    TrimOfTrimmed(s);
    ReplaceCharAbsent(s, '\n', "<br/>");
  }

  lemma PlainRestore(s: string, blocks: seq<string>)
    requires '@' !in s
    ensures RestoreFrom("<p>" + s + "</p>", blocks, CodeHtml) == "<p>" + s + "</p>"
  {
    var h := "<p>" + s + "</p>";
    forall k | 0 <= k < |h| ensures h[k] != '@' {
      if 3 <= k < 3 + |s| {
        assert h[k] == s[k - 3];
      }
    }
    RestoreNoAtAll(h, blocks, CodeHtml);
  }

  /** A plain line renders as one paragraph holding exactly that line. */
  lemma PlainLineParagraph(s: string)
    requires PlainLine(s)
    ensures RenderMarkdown(s) == "<p>" + s + "</p>"
  {
    PlainHasNo(s);
    assert ExtractFences(s) == Extracted(s, []) by {
      NoFenceInPlain(s);
    }
    PlainPasses(s);
    PlainParagraphs(s);
    PlainRestore(s, []);
  }

  // ---------------------------------------------------------------------
  // Restoring the blocks: /@@CODEBLOCK(\d+)@@/g

  datatype Found = Found(index: nat, len: nat)

  /** `s` starts with the placeholder's opening "@@CODEBLOCK". */
  predicate MarkerAt(s: string) {
    |s| >= 11 && HasPrefix(s, Marker)
  }

  /** A placeholder at the start of `s`: its number and its length. */
  function PlaceholderAt(s: string): (r: Option<Found>)
    ensures r.Some? ==> 14 <= r.value.len <= |s|
  {
    if !MarkerAt(s) then None
    else
      var u := s[11..];
      var d := SpanOf(u, IsDecimal);
      if d == 0 || d + 2 > |u| || u[d] != '@' || u[d + 1] != '@' then None
      else Some(Found(ParseDigits(u[..d], 10), 11 + d + 2))
  }

  /** `codeBlocks[k] || ''`. */
  function BlockAt(blocks: seq<string>, k: nat): string {
    if k < |blocks| then blocks[k] else ""
  }

  /** Every placeholder replaced by what `render` makes of its block. */
  function RestoreFrom(s: string, blocks: seq<string>, render: string -> string): string
    decreases |s|
  {
    if s == [] then []
    else
      match PlaceholderAt(s)
      case Some(m) => render(BlockAt(blocks, m.index)) + RestoreFrom(s[m.len..], blocks, render)
      case None => [s[0]] + RestoreFrom(s[1..], blocks, render)
  }

  /** The HTML a restored block becomes. */
  function CodeHtml(code: string): string {
    "<pre><code>" + EscapeHtml(code) + "</code></pre>"
  }

  /** The fenced source a block came from. */
  function Refence(code: string): string {
    Fence + code + Fence
  }

  /** `SpanOf` stops exactly at the first character failing `p`. */
  lemma {:induction false} SpanOfExact(s: string, p: char -> bool, n: nat)
    requires n <= |s|
    requires forall k :: 0 <= k < n ==> p(s[k])
    requires n < |s| ==> !p(s[n])
    ensures SpanOf(s, p) == n
    decreases n
  {
    if n > 0 {
      SpanOfExact(s[1..], p, n - 1);
    }
  }

  /** The marker, then `u`. */
  lemma MarkerThen(u: string)
    ensures MarkerAt(Marker + u) && (Marker + u)[11..] == u
  {
    HasPrefixConcat(Marker, u);
  }

  /** A run of decimal digits closed by "@@": the run is read whole. */
  lemma DigitsThen(digits: string, t: string)
    requires forall i :: 0 <= i < |digits| ==> IsDecimal(digits[i])
    ensures var u := digits + ("@@" + t);
      && |digits| + 2 <= |u| && u[..|digits|] == digits && u[|digits|] == '@' && u[|digits| + 1] == '@'
      && SpanOf(u, IsDecimal) == |digits|
  {
    var u := digits + ("@@" + t);
    assert u[|digits|] == '@';
    SpanOfExact(u, IsDecimal, |digits|);
  }

  /** A placeholder is read back as the number it was written with, and is taken whole. */
  lemma PlaceholderRead(k: nat, t: string)
    ensures PlaceholderAt(Placeholder(k) + t) == Some(Found(k, |Placeholder(k)|))
  {
    var digits := NumberToString(k, 10);
    var u := digits + ("@@" + t);
    assert Placeholder(k) + t == Marker + u;
    MarkerThen(u);
    NumberToStringDigits(k, 10);
    DigitsThen(digits, t);
    ParseNumberToString(k, 10);
  }

  lemma RestorePlaceholder(k: nat, t: string, blocks: seq<string>, render: string -> string)
    ensures RestoreFrom(Placeholder(k) + t, blocks, render) == render(BlockAt(blocks, k)) + RestoreFrom(t, blocks, render)
  {
    PlaceholderRead(k, t);
    assert (Placeholder(k) + t)[|Placeholder(k)|..] == t;
  }

  /** Text without `@` holds no placeholder and is copied through. */
  lemma {:induction false} RestoreNoAt(a: string, b: string, blocks: seq<string>, render: string -> string)
    requires '@' !in a
    ensures RestoreFrom(a + b, blocks, render) == a + RestoreFrom(b, blocks, render)
    decreases |a|
  {
    if a == [] {
      assert a + b == b;
    } else {
      var s := a + b;
      assert s[0] == a[0] && s[1..] == a[1..] + b;
      assert PlaceholderAt(s).None?;
      RestoreNoAt(a[1..], b, blocks, render);
      ConcatAssoc([a[0]], a[1..], RestoreFrom(b, blocks, render));
      assert a == [a[0]] + a[1..];
    }
  }

  /**
   * The lazy match `NextFence` reports: fences at both positions, none
   * before the opening one, and none between the two, so the block is the
   * shortest one that starts at the leftmost fence.
   */
  lemma NextFenceFound(s: string)
    requires NextFence(s).Some?
    ensures s[NextFence(s).value.open..NextFence(s).value.open + 3] == Fence
    ensures s[NextFence(s).value.close..NextFence(s).value.close + 3] == Fence
    ensures forall k :: 0 <= k < NextFence(s).value.open ==> !OccursAt(s, Fence, k)
    ensures forall k :: NextFence(s).value.open + 3 <= k < NextFence(s).value.close ==> !OccursAt(s, Fence, k)
  {
    var p := IndexOf(s, Fence, 0);
    IndexOfFirst(s, Fence, 0);
    IndexOfFirst(s, Fence, p.value + 3);
  }

  /** `NextFence` finds nothing exactly when no fence is followed, without overlap, by another. */
  lemma NextFenceNone(s: string)
    ensures NextFence(s).None? <==>
      forall o, c :: OccursAt(s, Fence, o) && o + 3 <= c ==> !OccursAt(s, Fence, c)
  {
    IndexOfFirst(s, Fence, 0);
    var p := IndexOf(s, Fence, 0);
    if p.Some? {
      IndexOfFirst(s, Fence, p.value + 3);
      var q := IndexOf(s, Fence, p.value + 3);
      if q.None? {
        forall o, c | OccursAt(s, Fence, o) && o + 3 <= c ensures !OccursAt(s, Fence, c) {
          assert p.value <= o;
        }
      }
    }
  }

  /** A text cut around two occurrences of `f` and glued back together. */
  lemma Reassemble(s: string, o: nat, c: nat, f: string)
    requires |f| == 3 && o + 3 <= c && c + 3 <= |s|
    requires s[o..o + 3] == f && s[c..c + 3] == f
    ensures s == s[..o] + ((f + s[o + 3..c] + f) + s[c + 3..])
  {
  }

  /** `found` sits in `all` from position `n` on. */
  predicate BlocksFrom(all: seq<string>, n: nat, found: seq<string>) {
    n + |found| <= |all| && forall j :: 0 <= j < |found| ==> all[n + j] == found[j]
  }

  /** The first block found sits at `n`, the others from `n + 1` on. */
  lemma BlocksFromStep(all: seq<string>, n: nat, code: string, found: seq<string>)
    requires BlocksFrom(all, n, [code] + found)
    ensures n < |all| && all[n] == code && BlocksFrom(all, n + 1, found)
  {
    assert ([code] + found)[0] == code;
    forall j | 0 <= j < |found| ensures all[n + 1 + j] == found[j] {
      assert ([code] + found)[j + 1] == found[j];
    }
  }

  lemma RestoreNoAtAll(a: string, blocks: seq<string>, render: string -> string)
    requires '@' !in a
    ensures RestoreFrom(a, blocks, render) == a
  {
    RestoreNoAt(a, [], blocks, render);
    assert a + [] == a;
  }

  /** A placeholder between text without `@` and text already restored. */
  lemma RestoreAround(pre: string, k: nat, t: string, blocks: seq<string>, render: string -> string, tail: string)
    requires '@' !in pre && k < |blocks|
    requires RestoreFrom(t, blocks, render) == tail
    ensures RestoreFrom(pre + (Placeholder(k) + t), blocks, render) == pre + (render(blocks[k]) + tail)
  {
    RestoreNoAt(pre, Placeholder(k) + t, blocks, render);
    RestorePlaceholder(k, t, blocks, render);
  }

  /** The step of the round trip: a fenced block put back between the text before it and the text after it, already restored. */
  lemma FenceRestore(rest: string, o: nat, c: nat, n: nat, t: string, all: seq<string>)
    requires o + 3 <= c && c + 3 <= |rest|
    requires rest[o..o + 3] == Fence && rest[c..c + 3] == Fence
    requires '@' !in rest[..o]
    requires n < |all| && all[n] == rest[o + 3..c]
    requires RestoreFrom(t, all, Refence) == rest[c + 3..]
    ensures RestoreFrom(rest[..o] + (Placeholder(n) + t), all, Refence) == rest
  {
    RestoreAround(rest[..o], n, t, all, Refence, rest[c + 3..]);
    Reassemble(rest, o, c, Fence);
  }

  /**
   * Restoring each placeholder as its block between fences gives back the
   * text the scan started from, when that text has no `@` of its own.
   */
  lemma {:induction false} ScanRoundTrip(n: nat, rest: string, all: seq<string>)
    requires '@' !in rest
    requires BlocksFrom(all, n, FenceBlocks(rest))
    ensures RestoreFrom(FenceText(n, rest), all, Refence) == rest
    decreases |rest|
  {
    var b := NextFence(rest);
    if b.None? {
      RestoreNoAtAll(rest, all, Refence);
    } else {
      var o, c := b.value.open, b.value.close;
      var code := rest[o + 3..c];
      var rest' := rest[c + 3..];
      BlocksFromStep(all, n, code, FenceBlocks(rest'));
      NextFenceFound(rest);
      assert '@' !in rest' && '@' !in rest[..o];
      var t := FenceText(n + 1, rest');
      ScanRoundTrip(n + 1, rest', all);
      FenceRestore(rest, o, c, n, t, all);
    }
  }

  /** The fence scan loses nothing: the blocks put back between fences restore the markdown. */
  lemma FenceRoundTrip(md: string)
    requires '@' !in md
    ensures RestoreFrom(ExtractFences(md).text, ExtractFences(md).blocks, Refence) == md
  {
    ScanRoundTrip(0, md, FenceBlocks(md));
  }

  // ---------------------------------------------------------------------
  // Escaping

  /** `s.replace(/c/g, r)` for a single character `c`. */
  function ReplaceChar(s: string, c: char, r: string): string {
    if s == [] then [] else (if s[0] == c then r else [s[0]]) + ReplaceChar(s[1..], c, r)
  }

  /** `escapeHtml`: `&` first, then `<`, then `>`. */
  function EscapeHtml(s: string): string {
    ReplaceChar(ReplaceChar(ReplaceChar(s, '&', "&amp;"), '<', "&lt;"), '>', "&gt;")
  }

  /** The entity for one character. */
  function EscapeChar(c: char): string {
    if c == '&' then "&amp;" else if c == '<' then "&lt;" else if c == '>' then "&gt;" else [c]
  }

  /** Character-by-character escaping. */
  function EscapeEach(s: string): string {
    if s == [] then [] else EscapeChar(s[0]) + EscapeEach(s[1..])
  }

  /** Reading the three entities back. */
  function Unescape(s: string): string {
    if s == [] then []
    else if |s| >= 5 && s[..5] == "&amp;" then "&" + Unescape(s[5..])
    else if |s| >= 4 && s[..4] == "&lt;" then "<" + Unescape(s[4..])
    else if |s| >= 4 && s[..4] == "&gt;" then ">" + Unescape(s[4..])
    else [s[0]] + Unescape(s[1..])
  }

  lemma {:induction false} ReplaceCharAppend(a: string, b: string, c: char, r: string)
    ensures ReplaceChar(a + b, c, r) == ReplaceChar(a, c, r) + ReplaceChar(b, c, r)
    decreases |a|
  {
    if a != [] {
      assert (a + b)[0] == a[0] && (a + b)[1..] == a[1..] + b;
      ReplaceCharAppend(a[1..], b, c, r);
      var h := if a[0] == c then r else [a[0]];
      assert ReplaceChar(a + b, c, r) == h + (ReplaceChar(a[1..], c, r) + ReplaceChar(b, c, r));
      ConcatAssoc(h, ReplaceChar(a[1..], c, r), ReplaceChar(b, c, r));
      assert ReplaceChar(a, c, r) == h + ReplaceChar(a[1..], c, r);
    } else {
      assert a + b == b;
    }
  }

  /** A text without `c` is left as it is. */
  lemma {:induction false} ReplaceCharAbsent(s: string, c: char, r: string)
    requires c !in s
    ensures ReplaceChar(s, c, r) == s
    decreases |s|
  {
    if s != [] {
      ReplaceCharAbsent(s[1..], c, r);
    }
  }

  /** After the replacement no `c` is left, provided the replacement itself has none. */
  lemma {:induction false} ReplaceCharRemoves(s: string, c: char, r: string)
    requires c !in r
    ensures c !in ReplaceChar(s, c, r)
    decreases |s|
  {
    if s != [] {
      ReplaceCharRemoves(s[1..], c, r);
    }
  }

  /**
   * The three passes of `escapeHtml` amount to escaping each character on
   * its own: the entity `&amp;` written by the first pass contains no `<`
   * or `>`, and `&lt;` none of `>`, so no later pass touches them.
   */
  lemma {:induction false} EscapeHtmlPerChar(s: string)
    ensures EscapeHtml(s) == EscapeEach(s)
    decreases |s|
  {
    if s != [] {
      var c, t := s[0], s[1..];
      assert s == [c] + t;
      var one := ReplaceChar(ReplaceChar(ReplaceChar([c], '&', "&amp;"), '<', "&lt;"), '>', "&gt;");
      ReplaceCharAppend([c], t, '&', "&amp;");
      ReplaceCharAppend(ReplaceChar([c], '&', "&amp;"), ReplaceChar(t, '&', "&amp;"), '<', "&lt;");
      ReplaceCharAppend(ReplaceChar(ReplaceChar([c], '&', "&amp;"), '<', "&lt;"),
        ReplaceChar(ReplaceChar(t, '&', "&amp;"), '<', "&lt;"), '>', "&gt;");
      assert EscapeHtml(s) == one + EscapeHtml(t);
      EscapeOne(c);
      EscapeHtmlPerChar(t);
    }
  }

  lemma ReplaceSingle(c: char, x: char, r: string)
    ensures ReplaceChar([c], x, r) == if c == x then r else [c]
  {
    assert [c][1..] == [];
  }

  /** The three passes on one character give its entity. */
  lemma EscapeOne(c: char)
    ensures ReplaceChar(ReplaceChar(ReplaceChar([c], '&', "&amp;"), '<', "&lt;"), '>', "&gt;") == EscapeChar(c)
  {
    ReplaceSingle(c, '&', "&amp;");
    var a := ReplaceChar([c], '&', "&amp;");
    if c == '&' {
      assert a == "&amp;";
      assert '<' !in a && '>' !in a;
      ReplaceCharAbsent(a, '<', "&lt;");
      ReplaceCharAbsent(a, '>', "&gt;");
    } else {
      assert a == [c];
      ReplaceSingle(c, '<', "&lt;");
      var b := ReplaceChar(a, '<', "&lt;");
      if c == '<' {
        assert b == "&lt;";
        assert '>' !in b;
        ReplaceCharAbsent(b, '>', "&gt;");
      } else {
        assert b == [c];
        ReplaceSingle(c, '>', "&gt;");
      }
    }
  }

  /** Escaped text holds no `<` and no `>`, so it cannot open or close a tag. */
  lemma EscapeHtmlNoTags(s: string)
    ensures '<' !in EscapeHtml(s) && '>' !in EscapeHtml(s)
  {
    ReplaceCharRemoves(ReplaceChar(s, '&', "&amp;"), '<', "&lt;");
    var t := ReplaceChar(ReplaceChar(s, '&', "&amp;"), '<', "&lt;");
    ReplaceCharRemoves(t, '>', "&gt;");
    EscapeLtStaysOut(t);
  }

  /** Replacing `>` never brings a `<` back. */
  lemma {:induction false} EscapeLtStaysOut(t: string)
    requires '<' !in t
    ensures '<' !in ReplaceChar(t, '>', "&gt;")
    decreases |t|
  {
    if t != [] {
      EscapeLtStaysOut(t[1..]);
    }
  }

  /** Reading the entities back gives the original text: escaping loses nothing. */
  lemma {:induction false} UnescapeEscape(s: string)
    ensures Unescape(EscapeHtml(s)) == s
  {
    EscapeHtmlPerChar(s);
    UnescapeEach(s);
  }

  lemma {:induction false} UnescapeEach(s: string)
    ensures Unescape(EscapeEach(s)) == s
    decreases |s|
  {
    if s != [] {
      var c, t := s[0], s[1..];
      var e := EscapeEach(s);
      assert e == EscapeChar(c) + EscapeEach(t);
      UnescapeEach(t);
      if c == '&' {
        assert e[..5] == "&amp;" && e[5..] == EscapeEach(t);
      } else if c == '<' {
        assert e[..4] == "&lt;" && e[4..] == EscapeEach(t);
        assert |e| >= 5 ==> e[..5][1] == 'l';
      } else if c == '>' {
        assert e[..4] == "&gt;" && e[4..] == EscapeEach(t);
        assert |e| >= 5 ==> e[..5][1] == 'g';
        assert e[..4][1] == 'g';
      } else {
        assert e[0] == c && e[1..] == EscapeEach(t);
        assert |e| >= 5 ==> e[..5][0] == c;
        assert |e| >= 4 ==> e[..4][0] == c;
      }
      assert s == [c] + t;
    }
  }

  // ---------------------------------------------------------------------
  // Inline code: /`([^`]+)`/g

  /**
   * Each pair of backticks around at least one other character becomes a
   * `<code>` element; a backtick directly followed by another one starts
   * nothing, and the search goes on from the second.
   */
  function InlineCode(s: string): string
    decreases |s|
  {
    match IndexOf(s, "`", 0)
    case None => s
    case Some(p) =>
      match IndexOf(s, "`", p + 1)
      case None => s
      case Some(q) =>
        if q == p + 1 then s[..p + 1] + InlineCode(s[p + 1..])
        else s[..p] + "<code>" + s[p + 1..q] + "</code>" + InlineCode(s[q + 1..])
  }

  /** `IndexOf` reports the first occurrence at or after `from`. */
  lemma {:induction false} IndexOfIs(s: string, pat: string, from: nat, k: nat)
    requires from <= k && OccursAt(s, pat, k)
    requires forall j :: from <= j < k ==> !OccursAt(s, pat, j)
    ensures IndexOf(s, pat, from) == Some(k)
    decreases k - from
  {
    HasPrefixIsSlice(s[from..], pat);
    assert s[from..][..|pat|] == s[from..from + |pat|];
    if from < k {
      assert !OccursAt(s, pat, from);
      IndexOfIs(s, pat, from + 1, k);
    }
  }

  /** The first backtick at or after `from` is at `k`. */
  lemma BacktickAt(s: string, from: nat, k: nat)
    requires from <= k < |s| && s[k] == '`'
    requires forall j :: from <= j < k ==> s[j] != '`'
    ensures IndexOf(s, "`", from) == Some(k)
  {
    assert s[k..k + 1] == [s[k]];
    forall j | from <= j < k
      ensures !OccursAt(s, "`", j)
    {
      assert s[j..j + 1] == [s[j]];
    }
    IndexOfIs(s, "`", from, k);
  }

  /** Text without backticks holds no inline code. */
  lemma InlineCodeNone(s: string)
    requires '`' !in s
    ensures InlineCode(s) == s
  {
    forall j: nat | j + 1 <= |s| ensures !OccursAt(s, "`", j) {
      assert s[j..j + 1] == [s[j]];
    }
    IndexOfFirst(s, "`", 0);
  }

  /**
   * A backtick, a non-empty run without backticks and another backtick, with
   * no backtick before them, become a `<code>` element; the search resumes
   * after the closing backtick.
   */
  lemma InlineCodeSpan(a: string, c: string, b: string)
    requires '`' !in a && '`' !in c && c != []
    ensures InlineCode(a + "`" + c + "`" + b) == a + "<code>" + c + "</code>" + InlineCode(b)
  {
    var s := a + "`" + c + "`" + b;
    var p, q := |a|, |a| + 1 + |c|;
    assert s[p] == '`' && s[q] == '`';
    forall j | 0 <= j < p ensures s[j] != '`' {
      assert s[j] == a[j];
    }
    forall j | p + 1 <= j < q ensures s[j] != '`' {
      assert s[j] == c[j - p - 1];
    }
    BacktickAt(s, 0, p);
    BacktickAt(s, p + 1, q);
    assert s[..p] == a && s[p + 1..q] == c && s[q + 1..] == b;
  }

  // ---------------------------------------------------------------------
  // Headings: /^#{n}\s*(.*)$/gm, for n from 6 down to 1

  /** Multiline `^`: the start of the text or just after a line terminator. */
  predicate LineStartAt(s: string, i: int) {
    i == 0 || (0 < i <= |s| && IsLineTerminator(s[i - 1]))
  }

  predicate HashesAt(s: string, i: nat, n: nat) {
    i + n <= |s| && forall k :: i <= k < i + n ==> s[k] == '#'
  }

  function HeadingOpen(n: nat): string
    requires n <= 9
  {
    "<h" + [(48 + n) as char] + ">"
  }

  function HeadingClose(n: nat): string
    requires n <= 9
  {
    "</h" + [(48 + n) as char] + ">"
  }

  /**
   * One heading pass from position `i`: at a line start with `n` hashes the
   * match takes the greedy white space (line terminators included) and the
   * rest of that line, and becomes `<hn>rest</hn>`.
   */
  function HeadingFrom(s: string, n: nat, i: nat): string
    requires 1 <= n <= 6 && i <= |s|
    decreases |s| - i
  {
    if i == |s| then []
    else if LineStartAt(s, i) && HashesAt(s, i, n) then
      var j := i + n + SpanOf(s[i + n..], IsSpace);
      var e := j + SpanOf(s[j..], NotLineTerminator);
      HeadingOpen(n) + s[j..e] + HeadingClose(n) + HeadingFrom(s, n, e)
    else [s[i]] + HeadingFrom(s, n, i + 1)
  }

  function HeadingPass(s: string, n: nat): string
    requires 1 <= n <= 6
  {
    HeadingFrom(s, n, 0)
  }

  /** The passes for `m` hashes down to one hash, longest marker first. */
  function HeadingPasses(s: string, m: nat): string
    requires m <= 6
    decreases m
  {
    if m == 0 then s else HeadingPasses(HeadingPass(s, m), m - 1)
  }

  /** The six heading passes. */
  function Headings(s: string): string {
    HeadingPasses(s, 6)
  }

  predicate NoLineBreak(s: string) {
    forall k :: 0 <= k < |s| ==> !IsLineTerminator(s[k])
  }

  /** Where no line starts with `#`, a pass changes nothing. */
  lemma {:induction false} HeadingFromUnchanged(s: string, n: nat, i: nat)
    requires 1 <= n <= 6 && i <= |s|
    requires forall k :: i <= k < |s| && LineStartAt(s, k) ==> s[k] != '#'
    ensures HeadingFrom(s, n, i) == s[i..]
    decreases |s| - i
  {
    if i < |s| {
      HeadingFromUnchanged(s, n, i + 1);
      assert s[i..] == [s[i]] + s[i + 1..];
    }
  }

  /** A single line is left alone by a pass whose marker it does not start with. */
  lemma HeadingPassUnchanged(s: string, m: nat)
    requires 1 <= m <= 6 && NoLineBreak(s)
    requires !HashesAt(s, 0, m)
    ensures HeadingPass(s, m) == s
  {
    if s != [] {
      HeadingFromUnchanged(s, m, 1);
      assert s == [s[0]] + s[1..];
    }
  }

  function HeadingLine(n: nat, text: string): string {
    Repeat('#', n) + " " + text
  }

  function HeadingHtml(n: nat, text: string): string
    requires n <= 9
  {
    HeadingOpen(n) + text + HeadingClose(n)
  }

  lemma HeadingHtmlShape(n: nat, text: string)
    requires 1 <= n <= 6 && NoLineBreak(text)
    ensures NoLineBreak(HeadingHtml(n, text)) && HeadingHtml(n, text)[0] == '<'
  {
    var u := HeadingHtml(n, text);
    forall k | 0 <= k < |u| ensures !IsLineTerminator(u[k]) {
      if k >= 4 + |text| {
        assert u[k] == HeadingClose(n)[k - 4 - |text|];
      } else if k >= 4 {
        assert u[k] == text[k - 4];
      }
    }
  }

  /** The pass for `n` hashes turns the line into the heading. */
  lemma HeadingPassOn(n: nat, text: string)
    requires 1 <= n <= 6 && NoLineBreak(text)
    requires text == [] || !IsSpace(text[0])
    ensures HeadingPass(HeadingLine(n, text), n) == HeadingHtml(n, text)
  {
    var line := HeadingLine(n, text);
    assert HashesAt(line, 0, n) by {
      forall k | 0 <= k < n ensures line[k] == '#' {
        assert line[k] == Repeat('#', n)[k];
      }
    }
    assert line[n..] == " " + text;
    SpanOfExact(line[n..], IsSpace, 1);
    var j := n + 1;
    assert line[j..] == text;
    SpanOfExact(text, NotLineTerminator, |text|);
    assert line[j..|line|] == text;
    assert HeadingFrom(line, n, 0) == HeadingOpen(n) + text + HeadingClose(n) + HeadingFrom(line, n, |line|);
  }

  /** Passes below the heading's level leave the heading alone. */
  lemma {:induction false} HeadingPassesBelow(u: string, m: nat)
    requires m <= 6 && NoLineBreak(u) && (u == [] || u[0] != '#')
    ensures HeadingPasses(u, m) == u
    decreases m
  {
    if m > 0 {
      HeadingPassUnchanged(u, m);
      HeadingPassesBelow(u, m - 1);
    }
  }

  lemma {:induction false} HeadingPassesLine(n: nat, text: string, m: nat)
    requires 1 <= n <= m <= 6 && NoLineBreak(text)
    requires text == [] || !IsSpace(text[0])
    ensures HeadingPasses(HeadingLine(n, text), m) == HeadingHtml(n, text)
    decreases m
  {
    var line := HeadingLine(n, text);
    if m == n {
      HeadingPassOn(n, text);
      HeadingHtmlShape(n, text);
      HeadingPassesBelow(HeadingHtml(n, text), n - 1);
    } else {
      assert line[n] == ' ';
      assert NoLineBreak(line) by {
        forall k | 0 <= k < |line| ensures !IsLineTerminator(line[k]) {
          if k > n {
            assert line[k] == text[k - n - 1];
          }
        }
      }
      HeadingPassUnchanged(line, m);
      HeadingPassesLine(n, text, m - 1);
    }
  }

  /**
   * A line of `n` hashes, a space and text on the same line (not starting
   * with white space) becomes an `<hn>` heading of that text, whatever the
   * level: the passes for more hashes do not match it, and the passes for
   * fewer do not match the heading.
   */
  lemma HeadingOfLine(n: nat, text: string)
    requires 1 <= n <= 6 && NoLineBreak(text)
    requires text == [] || !IsSpace(text[0])
    ensures Headings(HeadingLine(n, text)) == HeadingHtml(n, text)
  {
    HeadingPassesLine(n, text, 6);
  }

  /** No line of `s` starts with `#`. */
  predicate NoHashLine(s: string) {
    forall k :: 0 <= k < |s| && LineStartAt(s, k) ==> s[k] != '#'
  }

  lemma {:induction false} HeadingPassesNoHash(t: string, m: nat)
    requires m <= 6 && NoHashLine(t)
    ensures HeadingPasses(t, m) == t
    decreases m
  {
    if m > 0 {
      HeadingFromUnchanged(t, m, 0);
      assert t[0..] == t;
      HeadingPassesNoHash(t, m - 1);
    }
  }

  /** A text no line of which starts with `#` comes out of the heading passes as it went in. */
  lemma HeadingsNoHash(t: string)
    requires NoHashLine(t)
    ensures Headings(t) == t
  {
    HeadingPassesNoHash(t, 6);
  }

  // ---------------------------------------------------------------------
  // Bullet lists: /(?:^|\n)(- .+(?:\n- .+)*)/g

  /** `- ` followed by at least one character of the same line. */
  predicate ItemAt(t: string) {
    |t| > 2 && t[0] == '-' && t[1] == ' ' && !IsLineTerminator(t[2])
  }

  /** A run of item lines: the lines, and the length of text they cover. */
  datatype Run = Run(items: seq<string>, len: nat)

  /** The run of item lines starting at the start of `t`. */
  function ListBlock(t: string): (r: Run)
    requires ItemAt(t)
    ensures 3 <= r.len <= |t| && |r.items| >= 1
    decreases |t|
  {
    var e := SpanOf(t, NotLineTerminator);
    if e < |t| && t[e] == '\n' && ItemAt(t[e + 1..]) then
      var rest := ListBlock(t[e + 1..]);
      Run([t[..e]] + rest.items, e + 1 + rest.len)
    else Run([t[..e]], e)
  }

  /** `l.replace(/^- +/, '')`. */
  function StripBullet(l: string): string {
    if |l| >= 2 && l[0] == '-' && l[1] == ' ' then l[1 + SpanOf(l[1..], IsBlank)..] else l
  }

  function ItemsHtml(items: seq<string>): string {
    if items == [] then [] else "<li>" + Trim(StripBullet(items[0])) + "</li>" + ItemsHtml(items[1..])
  }

  function ListHtml(items: seq<string>): string {
    "\n<ul>" + ItemsHtml(items) + "</ul>\n"
  }

  /**
   * The list pass from position `i`: a run of item lines at the very start of
   * the text (`^` without the multiline flag), or just after a `\n` which the
   * match then takes along, becomes one `<ul>`.
   */
  function ListFrom(s: string, i: nat): string
    requires i <= |s|
    decreases |s| - i
  {
    if i == |s| then []
    else if i == 0 && ItemAt(s) then
      var b := ListBlock(s);
      ListHtml(b.items) + ListFrom(s, b.len)
    else if s[i] == '\n' && ItemAt(s[i + 1..]) then
      var b := ListBlock(s[i + 1..]);
      ListHtml(b.items) + ListFrom(s, i + 1 + b.len)
    else [s[i]] + ListFrom(s, i + 1)
  }

  /** A single item line is a run of one item that takes the whole line. */
  lemma ListBlockLine(l: string)
    requires ItemAt(l) && NoLineBreak(l)
    ensures ListBlock(l) == Run([l], |l|)
  {
    SpanOfExact(l, NotLineTerminator, |l|);
    assert l[..|l|] == l;
  }

  /** A line without line breaks, then a newline: the line is the span before the break. */
  lemma LineThenBreak(l: string, rest: string)
    requires NoLineBreak(l)
    ensures var t := l + "\n" + rest;
      && SpanOf(t, NotLineTerminator) == |l| && |l| < |t| && t[|l|] == '\n'
      && t[..|l|] == l && t[|l| + 1..] == rest
  {
    var t := l + "\n" + rest;
    forall k | 0 <= k < |l| ensures NotLineTerminator(t[k]) {
      assert t[k] == l[k];
    }
    SpanOfExact(t, NotLineTerminator, |l|);
    assert t[..|l|] == l && t[|l| + 1..] == rest;
  }

  /** An item line, a newline and a run: one run with that line first. */
  lemma ListBlockCons(l: string, rest: string, items: seq<string>)
    requires ItemAt(l) && NoLineBreak(l) && ItemAt(rest)
    requires ListBlock(rest) == Run(items, |rest|)
    ensures ItemAt(l + "\n" + rest)
    ensures ListBlock(l + "\n" + rest) == Run([l] + items, |l| + 1 + |rest|)
  {
    var t := l + "\n" + rest;
    LineThenBreak(l, rest);
    assert ItemAt(t) by {
      assert t[0] == l[0] && t[1] == l[1] && t[2] == l[2];
    }
  }

  /** Item lines joined by single newlines are read as one run of exactly those items. */
  lemma {:induction false} ListBlockOfLines(lines: seq<string>)
    requires |lines| >= 1
    requires forall i :: 0 <= i < |lines| ==> ItemAt(lines[i]) && NoLineBreak(lines[i])
    ensures ItemAt(JoinLines(lines))
    ensures ListBlock(JoinLines(lines)) == Run(lines, |JoinLines(lines)|)
    decreases |lines|
  {
    var l := lines[0];
    if |lines| == 1 {
      assert JoinLines(lines) == l && lines == [l];
      ListBlockLine(l);
    } else {
      var rest := JoinLines(lines[1..]);
      assert JoinLines(lines) == l + "\n" + rest;
      ListBlockOfLines(lines[1..]);
      ListBlockCons(l, rest, lines[1..]);
      assert [l] + lines[1..] == lines;
    }
  }

  /**
   * A text made only of item lines becomes one `<ul>` with an `<li>` per
   * line, holding the line without its bullet, trimmed.
   */
  lemma ListOfLines(lines: seq<string>)
    requires |lines| >= 1
    requires forall i :: 0 <= i < |lines| ==> ItemAt(lines[i]) && NoLineBreak(lines[i])
    ensures ListFrom(JoinLines(lines), 0) == ListHtml(lines)
  {
    ListBlockOfLines(lines);
  }

  /** Without newlines, and not starting with an item, the list pass changes nothing. */
  lemma {:induction false} ListFromUnchanged(s: string, i: nat)
    requires i <= |s| && '\n' !in s
    requires i == 0 ==> !ItemAt(s)
    ensures ListFrom(s, i) == s[i..]
    decreases |s| - i
  {
    if i < |s| {
      ListFromUnchanged(s, i + 1);
      assert s[i..] == [s[i]] + s[i + 1..];
    }
  }

  /** Where the list pass starts a match: an item at the very start, or a newline before an item. */
  predicate ListMatchAt(s: string, k: nat) {
    k < |s| && ((k == 0 && ItemAt(s)) || (s[k] == '\n' && ItemAt(s[k + 1..])))
  }

  /** No match of the list pass starts in `[i, j)`. */
  predicate NoListMatch(s: string, i: nat, j: nat) {
    forall k: nat :: i <= k < j ==> !ListMatchAt(s, k)
  }

  lemma ListFromStep(s: string, i: nat)
    requires i < |s| && !ListMatchAt(s, i)
    ensures ListFrom(s, i) == [s[i]] + ListFrom(s, i + 1)
  {
  }

  lemma ListFromCopies(s: string, i: nat, j: nat)
    requires i <= j <= |s| && NoListMatch(s, i, j)
    ensures forall k: nat :: i <= k < j ==> ListFrom(s, k) == [s[k]] + ListFrom(s, k + 1)
  {
    forall k: nat | i <= k < j ensures ListFrom(s, k) == [s[k]] + ListFrom(s, k + 1) {
      ListFromStep(s, k);
    }
  }

  /**
   * Where each output from `k` is the character at `k` followed by the output
   * from `k + 1`, the output from `i` is the slice up to `j` followed by the
   * output from `j`.
   */
  lemma {:induction false} CopyChain(s: string, out: nat -> string, i: nat, j: nat)
    requires i <= j <= |s|
    requires forall k: nat :: i <= k < j ==> out(k) == [s[k]] + out(k + 1)
    ensures out(i) == s[i..j] + out(j)
    decreases j - i
  {
    if i < j {
      CopyChain(s, out, i + 1, j);
      assert s[i..j] == [s[i]] + s[i + 1..j];
    } else {
      assert s[i..j] == [];
    }
  }

  /** The list pass copies the text up to `j` when no match starts before it. */
  lemma ListFromSkip(s: string, i: nat, j: nat)
    requires i <= j <= |s| && NoListMatch(s, i, j)
    ensures ListFrom(s, i) == s[i..j] + ListFrom(s, j)
  {
    ListFromCopies(s, i, j);
    CopyChain(s, (k: nat) => if k <= |s| then ListFrom(s, k) else [], i, j);
  }

  /** No line of `s` starts with `-`, so no item starts in it. */
  predicate NoDashLine(s: string) {
    forall k {:trigger s[k]} :: 0 <= k < |s| && (k == 0 || s[k - 1] == '\n') ==> s[k] != '-'
  }

  /** Where no line starts with `-`, the list pass finds no match. */
  lemma NoMatchWithoutDash(s: string, k: nat)
    requires NoDashLine(s) && k < |s|
    ensures !ListMatchAt(s, k)
  {
    if k == 0 {
      assert s[0] != '-';
    }
    if s[k] == '\n' && k + 1 < |s| {
      assert s[k + 1] != '-';
      assert s[k + 1..][0] == s[k + 1];
    }
  }

  /** A text no line of which starts with `-` comes out of the list pass as it went in. */
  lemma ListFromNoDash(s: string)
    requires NoDashLine(s)
    ensures ListFrom(s, 0) == s
  {
    forall k: nat | k < |s| ensures !ListMatchAt(s, k) {
      NoMatchWithoutDash(s, k);
    }
    ListFromSkip(s, 0, |s|);
    assert s[0..|s|] == s;
  }

  // ---------------------------------------------------------------------
  // Paragraphs: split(/\n{2,}/g), trim, filter(Boolean), wrap, join("\n")

  /** `s.split(/\n{2,}/)`: the pieces between maximal runs of two or more newlines. */
  function SplitBlankRuns(s: string): (parts: seq<string>)
    ensures |parts| >= 1
    decreases |s|
  {
    match IndexOf(s, "\n\n", 0)
    case None => [s]
    case Some(p) =>
      var q := p + SpanOf(s[p..], IsNewline);
      [s[..p]] + SplitBlankRuns(s[q..])
  }

  function StartsWith(s: string, prefix: string): bool {
    |prefix| <= |s| && s[..|prefix|] == prefix
  }

  /** `/^<\/?(h\d|ul|pre|blockquote)/`. */
  predicate IsBlock(p: string) {
    && |p| >= 1 && p[0] == '<'
    && var t := if |p| >= 2 && p[1] == '/' then p[2..] else p[1..];
      || (|t| >= 2 && t[0] == 'h' && IsDecimal(t[1]))
      || StartsWith(t, "ul") || StartsWith(t, "pre") || StartsWith(t, "blockquote")
  }

  /** A block element is kept; anything else becomes a paragraph with `<br/>` for each newline. */
  function Paragraph(p: string): string {
    if IsBlock(p) then p else "<p>" + ReplaceChar(p, '\n', "<br/>") + "</p>"
  }

  /** The trimmed pieces that are not empty, each as a paragraph or block. */
  function ParagraphsOf(parts: seq<string>): (r: seq<string>)
    ensures |r| <= |parts|
  {
    if parts == [] then []
    else if Trim(parts[0]) == "" then ParagraphsOf(parts[1..])
    else [Paragraph(Trim(parts[0]))] + ParagraphsOf(parts[1..])
  }

  function JoinLines(parts: seq<string>): string {
    if parts == [] then []
    else if |parts| == 1 then parts[0]
    else parts[0] + "\n" + JoinLines(parts[1..])
  }

  function Paragraphs(s: string): string {
    JoinLines(ParagraphsOf(SplitBlankRuns(s)))
  }

  /** No piece of the split holds two newlines in a row. */
  lemma {:induction false} SplitPartsNoBlankLine(s: string)
    ensures forall i, k :: 0 <= i < |SplitBlankRuns(s)| ==> !OccursAt(SplitBlankRuns(s)[i], "\n\n", k)
    decreases |s|
  {
    var parts := SplitBlankRuns(s);
    IndexOfFirst(s, "\n\n", 0);
    match IndexOf(s, "\n\n", 0)
    case None =>
    case Some(p) =>
      var q := p + SpanOf(s[p..], IsNewline);
      SplitPartsNoBlankLine(s[q..]);
      BeforeFirstNoBlankLine(s, p);
      var rest := SplitBlankRuns(s[q..]);
      assert parts == [s[..p]] + rest;
      forall i, k | 0 <= i < |parts| ensures !OccursAt(parts[i], "\n\n", k) {
        if i > 0 {
          assert parts[i] == rest[i - 1];
        }
      }
  }

  /** The text before the first `\n\n` holds none. */
  lemma BeforeFirstNoBlankLine(s: string, p: nat)
    requires p <= |s|
    requires forall k :: 0 <= k < p ==> !OccursAt(s, "\n\n", k)
    ensures forall k :: !OccursAt(s[..p], "\n\n", k)
  {
    forall k | OccursAt(s[..p], "\n\n", k) ensures false {
      assert s[..p][k..k + 2] == s[k..k + 2];
      assert OccursAt(s, "\n\n", k);
    }
  }

  /** Text without two newlines in a row is a single piece. */
  lemma SplitSingle(s: string)
    requires forall k :: !OccursAt(s, "\n\n", k)
    ensures SplitBlankRuns(s) == [s]
  {
    IndexOfFirst(s, "\n\n", 0);
  }

  /** The separators `split(/\n{2,}/)` removes: the length of each run of newlines, in order. */
  function BlankRunLengths(s: string): seq<nat>
    decreases |s|
  {
    match IndexOf(s, "\n\n", 0)
    case None => []
    case Some(p) =>
      var q := p + SpanOf(s[p..], IsNewline);
      [q - p] + BlankRunLengths(s[q..])
  }

  /** The pieces glued back together, piece `i` followed by `gaps[i]` newlines. */
  function JoinRuns(parts: seq<string>, gaps: seq<nat>): string
    requires |gaps| + 1 == |parts|
    decreases |gaps|
  {
    if gaps == [] then parts[0]
    else parts[0] + Repeat('\n', gaps[0]) + JoinRuns(parts[1..], gaps[1..])
  }

  predicate EndsWithNewline(s: string) { s != [] && s[|s| - 1] == '\n' }

  predicate StartsWithNewline(s: string) { s != [] && s[0] == '\n' }

  /** A run of newlines starting with two: at least two long, all newlines, and taken whole. */
  lemma NewlineRun(t: string)
    requires |t| >= 2 && t[0] == '\n' && t[1] == '\n'
    ensures var n := SpanOf(t, IsNewline);
      && 2 <= n && t[..n] == Repeat('\n', n) && !StartsWithNewline(t[n..])
  {
    var n := SpanOf(t, IsNewline);
    assert t[..n] == Repeat('\n', n) by {
      forall k | 0 <= k < n ensures t[..n][k] == Repeat('\n', n)[k] {
        assert IsNewline(t[k]);
      }
    }
    if n < |t| {
      assert t[n..][0] == t[n];
    }
  }

  /**
   * The first separator: the run of newlines starting at the leftmost
   * `\n\n`, at least two long, taken whole, with no newline just before it.
   */
  lemma FirstBlankRun(s: string, p: nat, q: nat)
    requires OccursAt(s, "\n\n", p) && forall k :: 0 <= k < p ==> !OccursAt(s, "\n\n", k)
    requires q == p + SpanOf(s[p..], IsNewline)
    ensures p + 2 <= q <= |s|
    ensures s == s[..p] + Repeat('\n', q - p) + s[q..]
    ensures !EndsWithNewline(s[..p]) && !StartsWithNewline(s[q..])
  {
    var t := s[p..];
    assert t[..2] == s[p..p + 2];
    NewlineRun(t);
    CutAround(s, p, q);
    assert s[q..] == t[q - p..];
    NoNewlineBefore(s, p);
  }

  /** The split at the leftmost `\n\n`, as `FirstBlankRun` describes it. */
  lemma SplitStep(s: string, p: nat, q: nat)
    requires IndexOf(s, "\n\n", 0) == Some(p) && q == p + SpanOf(s[p..], IsNewline)
    ensures p + 2 <= q <= |s|
    ensures s == s[..p] + Repeat('\n', q - p) + s[q..]
    ensures !EndsWithNewline(s[..p]) && !StartsWithNewline(s[q..])
    ensures SplitBlankRuns(s) == [s[..p]] + SplitBlankRuns(s[q..])
    ensures BlankRunLengths(s) == [q - p] + BlankRunLengths(s[q..])
  {
    FirstOccurrence(s, p);
    FirstBlankRun(s, p, q);
  }

  /** The leftmost `\n\n` is one, with none before it. */
  lemma FirstOccurrence(s: string, p: nat)
    requires IndexOf(s, "\n\n", 0) == Some(p)
    ensures OccursAt(s, "\n\n", p) && forall k :: 0 <= k < p ==> !OccursAt(s, "\n\n", k)
  {
    IndexOfFirst(s, "\n\n", 0);
  }

  /** A text is what comes before `p`, the part from `p` to `q`, and the rest. */
  lemma CutAround(s: string, p: nat, q: nat)
    requires p <= q <= |s|
    ensures s == s[..p] + s[p..][..q - p] + s[q..]
  {
    assert s[p..][..q - p] == s[p..q];
  }

  /** Just before the leftmost `\n\n` there is no newline. */
  lemma NoNewlineBefore(s: string, p: nat)
    requires p <= |s| && OccursAt(s, "\n\n", p)
    requires forall k :: 0 <= k < p ==> !OccursAt(s, "\n\n", k)
    ensures !EndsWithNewline(s[..p])
  {
    if p > 0 {
      assert !OccursAt(s, "\n\n", p - 1);
      assert s[p] == '\n' by {
        assert s[p..p + 2][0] == s[p];
      }
      assert s[p - 1..p + 1] == [s[p - 1], s[p]];
      assert s[..p][p - 1] == s[p - 1];
    }
  }

  /**
   * What the split means: the text is its pieces joined by the removed runs
   * of newlines, each at least two long.
   */
  lemma {:induction false} SplitBlankRunsJoin(s: string)
    ensures |BlankRunLengths(s)| + 1 == |SplitBlankRuns(s)|
    ensures JoinRuns(SplitBlankRuns(s), BlankRunLengths(s)) == s
    ensures forall i :: 0 <= i < |BlankRunLengths(s)| ==> BlankRunLengths(s)[i] >= 2
    decreases |s|
  {
    match IndexOf(s, "\n\n", 0)
    case None =>
    case Some(p) =>
      var q := p + SpanOf(s[p..], IsNewline);
      SplitStep(s, p, q);
      SplitBlankRunsJoin(s[q..]);
      var parts, gaps := SplitBlankRuns(s), BlankRunLengths(s);
      assert parts[1..] == SplitBlankRuns(s[q..]) && gaps[1..] == BlankRunLengths(s[q..]);
  }

  /**
   * Each run of newlines is taken whole: no piece before a separator ends
   * with a newline, and no piece after one starts with a newline.
   */
  predicate WholeRuns(parts: seq<string>) {
    && (forall i :: 0 <= i < |parts| - 1 ==> !EndsWithNewline(parts[i]))
    && (forall i :: 1 <= i < |parts| ==> !StartsWithNewline(parts[i]))
  }

  lemma WholeRunsCons(x: string, rest: seq<string>)
    requires WholeRuns(rest) && !EndsWithNewline(x)
    requires rest != [] && !StartsWithNewline(rest[0])
    ensures WholeRuns([x] + rest)
  {
    var parts := [x] + rest;
    forall i | 1 <= i < |parts| ensures parts[i] == rest[i - 1] {
    }
  }

  /** The first piece is a prefix of the text. */
  lemma SplitFirstPiece(s: string)
    ensures |SplitBlankRuns(s)[0]| <= |s| && SplitBlankRuns(s)[0] == s[..|SplitBlankRuns(s)[0]|]
  {
    match IndexOf(s, "\n\n", 0)
    case None =>
    case Some(p) =>
  }

  lemma {:induction false} SplitPiecesWhole(s: string)
    ensures WholeRuns(SplitBlankRuns(s))
    decreases |s|
  {
    match IndexOf(s, "\n\n", 0)
    case None =>
    case Some(p) =>
      var q := p + SpanOf(s[p..], IsNewline);
      SplitStep(s, p, q);
      SplitPiecesWhole(s[q..]);
      SplitFirstPiece(s[q..]);
      var rest := SplitBlankRuns(s[q..]);
      assert !StartsWithNewline(rest[0]) by {
        if rest[0] != [] {
          assert rest[0][0] == s[q..][0];
        }
      }
      WholeRunsCons(s[..p], rest);
  }

  /** The paragraph step works piece by piece, in order. */
  lemma {:induction false} ParagraphsOfAppend(a: seq<string>, b: seq<string>)
    ensures ParagraphsOf(a + b) == ParagraphsOf(a) + ParagraphsOf(b)
    decreases |a|
  {
    if a == [] {
      assert a + b == b;
    } else {
      assert (a + b)[0] == a[0] && (a + b)[1..] == a[1..] + b;
      ParagraphsOfAppend(a[1..], b);
    }
  }

  /** A piece that is blank once trimmed gives nothing; any other gives its trimmed text as a paragraph. */
  lemma ParagraphsOfPiece(p: string)
    ensures ParagraphsOf([p]) == if Trim(p) == "" then [] else [Paragraph(Trim(p))]
  {
    assert [p][1..] == [];
  }

  /** A paragraph is one line: its newlines have become `<br/>`. */
  lemma ParagraphOneLine(p: string)
    requires !IsBlock(p)
    ensures Paragraph(p) == "<p>" + ReplaceChar(p, '\n', "<br/>") + "</p>"
    ensures '\n' !in Paragraph(p)
  {
    ReplaceCharRemoves(p, '\n', "<br/>");
  }

  /** What the paragraph step keeps is never empty. */
  lemma {:induction false} ParagraphsNonEmpty(parts: seq<string>)
    ensures forall i :: 0 <= i < |ParagraphsOf(parts)| ==> ParagraphsOf(parts)[i] != ""
    decreases |parts|
  {
    if parts != [] {
      ParagraphsNonEmpty(parts[1..]);
      var t := Trim(parts[0]);
      if t != "" && !IsBlock(t) {
        assert Paragraph(t)[0] == '<';
      }
    }
  }

  // ---------------------------------------------------------------------
  // The whole renderer

  /** `markdownToHtml`. */
  function RenderMarkdown(md: string): string {
    if md == "" then ""
    else
      var e := ExtractFences(md);
      var html := Paragraphs(ListFrom(Headings(InlineCode(EscapeHtml(e.text))), 0));
      RestoreFrom(html, e.blocks, CodeHtml)
  }

  /** `markdownToHtml` step by step: the fence scan, then each pass reassigning `md`. */
  method MarkdownToHtml(input: string) returns (html: string)
    ensures html == RenderMarkdown(input)
    ensures input == "" ==> html == ""
  {
    if input == "" {
      return "";
    }
    var extracted := ExtractFences(input);
    var md, codeBlocks := extracted.text, extracted.blocks;
    md := EscapeHtml(md);
    md := InlineCode(md);
    md := Headings(md);
    md := ListFrom(md, 0);
    html := Paragraphs(md);
    html := RestoreFrom(html, codeBlocks, CodeHtml);
  }

  /** A placeholder passes through every step before the restore unchanged. */
  lemma PlaceholderPasses(k: nat)
    ensures PassLine(Placeholder(k))
  {
    var digits := NumberToString(k, 10);
    var p := Placeholder(k);
    NumberToStringDigits(k, 10);
    assert p == Marker + digits + "@@";
    forall i | 0 <= i < |p| ensures PassChar(p[i]) {
      if i < 11 {
        assert p[i] == Marker[i];
      } else if i < 11 + |digits| {
        assert p[i] == digits[i - 11];
        assert IsDigitIn(digits[i - 11], 10);
      } else {
        assert p[i] == '@';
      }
    }
    assert p[0] == '@' && p[|p| - 1] == '@';
  }

  /** A fence, text without backticks and a fence form one block, and the text around it is the placeholder alone. */
  lemma SingleFence(code: string)
    requires '`' !in code
    ensures ExtractFences(Fence + code + Fence).text == Placeholder(0)
    ensures ExtractFences(Fence + code + Fence).blocks == [code]
  {
    var s := Fence + code + Fence;
    var c := 3 + |code|;
    assert OccursAt(s, Fence, 0) by {
      assert s[0..3] == Fence;
    }
    IndexOfIs(s, Fence, 0, 0);
    assert OccursAt(s, Fence, c) by {
      assert s[c..c + 3] == Fence;
    }
    forall j | 3 <= j < c ensures !OccursAt(s, Fence, j) {
      assert s[j] == code[j - 3];
      assert j + 3 <= |s| ==> s[j..j + 3][0] == s[j];
    }
    IndexOfIs(s, Fence, 3, c);
    assert NextFence(s) == Some(Block(0, c));
    assert s[c + 3..] == [] && s[3..c] == code && s[..0] == [];
    assert NextFence([]).None?;
    assert FenceBlocks(s) == [code] + [];
    assert FenceText(0, s) == [] + (Placeholder(0) + []);
  }

  /**
   * A document that is one fenced block renders as that block's text,
   * escaped, inside `<pre><code>`. The paragraph step sees only the
   * placeholder, which is not a block element, so the code element ends up
   * wrapped in a paragraph: the `pre` alternative of the block test never
   * matches, because the placeholders are restored after that step.
   */
  lemma FencedBlockDocument(code: string)
    requires '`' !in code
    ensures RenderMarkdown(Fence + code + Fence) == "<p>" + CodeHtml(code) + "</p>"
  {
    var md := Fence + code + Fence;
    var e := ExtractFences(md);
    assert e.text == Placeholder(0) && e.blocks == [code] by {
      SingleFence(code);
    }
    PlaceholderRenders(0, [code]);
  }

  /** A text that is one placeholder becomes a paragraph holding the rendered block. */
  lemma PlaceholderRenders(k: nat, blocks: seq<string>)
    requires k < |blocks|
    ensures RestoreFrom(Paragraphs(ListFrom(Headings(InlineCode(EscapeHtml(Placeholder(k)))), 0)), blocks, CodeHtml)
      == "<p>" + CodeHtml(blocks[k]) + "</p>"
  {
    PlaceholderParagraph(k);
    RestoreParagraph(k, blocks);
  }

  /** A paragraph holding only a placeholder is restored to a paragraph holding the rendered block. */
  lemma RestoreParagraph(k: nat, blocks: seq<string>)
    requires k < |blocks|
    ensures RestoreFrom("<p>" + (Placeholder(k) + "</p>"), blocks, CodeHtml) == "<p>" + CodeHtml(blocks[k]) + "</p>"
  {
    RestoreWrapped("<p>", k, "</p>", blocks, CodeHtml);
    ConcatAssoc("<p>", CodeHtml(blocks[k]), "</p>");
  }

  lemma PlaceholderParagraph(k: nat)
    ensures Paragraphs(ListFrom(Headings(InlineCode(EscapeHtml(Placeholder(k)))), 0)) == "<p>" + (Placeholder(k) + "</p>")
  {
    var p := Placeholder(k);
    PlaceholderPasses(k);
    PlainPasses(p);
    PlainParagraphs(p);
    ConcatAssoc("<p>", p, "</p>");
  }

  /** A placeholder between two texts without `@` is the only thing the restore replaces. */
  lemma RestoreWrapped(pre: string, k: nat, post: string, blocks: seq<string>, render: string -> string)
    requires '@' !in pre && '@' !in post && k < |blocks|
    ensures RestoreFrom(pre + (Placeholder(k) + post), blocks, render) == pre + (render(blocks[k]) + post)
  {
    RestoreNoAtAll(post, blocks, render);
    RestoreAround(pre, k, post, blocks, render, post);
  }
}
