/** The block structure computed by src/components/markdown-renderer.tsx:
    the text is cut into lines; consecutive bullet lines form one list,
    every other non-blank line forms a paragraph, and within a paragraph
    back-quoted spans are set apart as code. The bold and italic
    substitutions inside segments are not part of this model. */
module Markdown {
  import opened Wrappers
  import opened Text

  datatype Segment = Code(text: string) | Plain(text: string)

  datatype Block = BulletList(items: seq<string>) | Paragraph(segments: seq<Segment>)

  const Backtick := '`'

  /** A line is a bullet when, trimmed, it starts with "* " or "- ". */
  predicate IsListLine(line: string) {
    StartsWith(Trim(line), "* ") || StartsWith(Trim(line), "- ")
  }

  /** The text of a bullet: the trimmed line without its marker. */
  function ItemText(line: string): string
    requires IsListLine(line)
  {
    Trim(line)[2..]
  }

  /** A line that becomes a paragraph: neither a bullet nor blank. */
  predicate IsParagraphLine(line: string) {
    !IsListLine(line) && Trim(line) != []
  }

  /* ----- Code spans: `line.split(/(`.*?`)/g)` ----- */

  /** A backtick at `k`, reached from `p` without crossing a line
      terminator (the `.` of the pattern matches anything else). */
  predicate Reaches(s: string, p: nat, k: nat) {
    p <= k < |s| && s[k] == Backtick && forall m | p <= m < k :: !IsLineTerminator(s[m])
  }

  /** Where the lazy `.*?` of a span opened just before `p` stops: the first
      backtick at or after `p`, if it is reached before any line terminator. */
  function CloseTick(s: string, p: nat): (r: Option<nat>)
    ensures r.Some? ==> Reaches(s, p, r.value) && forall k | p <= k < r.value :: s[k] != Backtick
    ensures r.None? <==> forall k | p <= k < |s| :: !Reaches(s, p, k)
    decreases |s| - p
  {
    if p >= |s| then None
    else if s[p] == Backtick then assert Reaches(s, p, p); Some(p)
    else if IsLineTerminator(s[p]) then None
    else
      ReachesPast(s, p);
      CloseTick(s, p + 1)
  }

  /** Past a character that is neither a backtick nor a line terminator,
      the same backticks are reached. */
  lemma ReachesPast(s: string, p: nat)
    requires p < |s| && s[p] != Backtick && !IsLineTerminator(s[p])
    ensures forall k: nat :: Reaches(s, p, k) <==> Reaches(s, p + 1, k)
  {
  }

  /** The closing backtick is the first backtick reached. */
  lemma CloseTickAt(s: string, p: nat, k: nat)
    requires Reaches(s, p, k) && forall m | p <= m < k :: s[m] != Backtick
    ensures CloseTick(s, p) == Some(k)
  {
  }

  /** A back-quoted span: backticks at both ends and neither a backtick nor a
      line terminator in between. */
  predicate IsCodeSpan(t: string) {
    && |t| >= 2 && t[0] == Backtick && t[|t| - 1] == Backtick
    && forall k | 0 < k < |t| - 1 :: t[k] != Backtick && !IsLineTerminator(t[k])
  }

  /** A match of the pattern starts at `i`: a backtick with a closing one
      after it on the same line. */
  predicate SpanAt(s: string, i: nat) {
    i < |s| && s[i] == Backtick && CloseTick(s, i + 1).Some?
  }

  /** No match of the pattern starts in `s[lo..hi]`. */
  predicate NoSpanIn(s: string, lo: nat, hi: nat) {
    forall i | lo <= i < hi :: !SpanAt(s, i)
  }

  /** The text from an opening backtick to where it closes is a span. */
  lemma SpanOfClose(s: string, i: nat)
    requires SpanAt(s, i)
    ensures i < CloseTick(s, i + 1).value < |s|
    ensures IsCodeSpan(s[i..CloseTick(s, i + 1).value + 1])
  {
    var j := CloseTick(s, i + 1).value;
    var t := s[i..j + 1];
    assert forall k | 0 < k < |t| - 1 :: t[k] == s[i + k];
  }

  /** A position where no match starts can be added in front of a stretch
      without one. */
  lemma NoSpanBefore(s: string, p: nat, hi: nat)
    requires !SpanAt(s, p) && NoSpanIn(s, p + 1, hi)
    ensures NoSpanIn(s, p, hi)
  {
  }

  /** The leftmost match of the pattern at or after `p`: its opening
      backtick is the first one at or after `p` that closes, and it closes at
      the first backtick after it; `None` when no match starts there. */
  function OpenTick(s: string, p: nat): (r: Option<(nat, nat)>)
    ensures r.None? <==> NoSpanIn(s, p, |s|)
    ensures r.Some? ==> p <= r.value.0 && SpanAt(s, r.value.0) && NoSpanIn(s, p, r.value.0)
    ensures r.Some? ==> r.value.1 == CloseTick(s, r.value.0 + 1).value
    decreases |s| - p
  {
    if p >= |s| then None
    else if s[p] == Backtick && CloseTick(s, p + 1).Some? then
      assert SpanAt(s, p);
      Some((p, CloseTick(s, p + 1).value))
    else
      var r := OpenTick(s, p + 1);
      NoSpanBefore(s, p, if r.Some? then r.value.0 else |s|);
      r
  }

  function Concat(pieces: seq<string>): string {
    if |pieces| == 0 then [] else pieces[0] + Concat(pieces[1..])
  }

  lemma ParityShift(n: nat)
    ensures (n + 2) % 2 == n % 2
  {
  }

  /** Text and pieces that alternate text and span, and give back `s`. */
  predicate Alternates(pieces: seq<string>, s: string) {
    && |pieces| % 2 == 1
    && Concat(pieces) == s
    && forall k | 0 <= k < |pieces| && k % 2 == 1 :: IsCodeSpan(pieces[k])
  }

  /** Every span was taken where the pattern, scanning from the left, first
      matches: no match starts inside a text piece, each text piece read
      against what is left of `s` once the spans before it are taken. */
  predicate Leftmost(pieces: seq<string>, s: string)
    decreases |pieces|
  {
    if |pieces| < 3 then NoSpanIn(s, 0, |s|)
    else
      && |pieces[0]| + |pieces[1]| <= |s|
      && NoSpanIn(s, 0, |pieces[0]|)
      && Leftmost(pieces[2..], s[|pieces[0]| + |pieces[1]|..])
  }

  /** Putting the text before a span and the span in front of the pieces of
      the rest keeps them alternating. */
  lemma PrependSpan(s: string, i: nat, j: nat, rest: seq<string>)
    requires i < j < |s| && IsCodeSpan(s[i..j + 1])
    requires Alternates(rest, s[j + 1..])
    ensures Alternates([s[..i], s[i..j + 1]] + rest, s)
  {
    var pieces := [s[..i], s[i..j + 1]] + rest;
    assert pieces[1..] == [s[i..j + 1]] + rest;
    assert pieces[1..][1..] == rest;
    assert Concat(pieces) == s[..i] + (s[i..j + 1] + s[j + 1..]);
    assert s == s[..i] + (s[i..j + 1] + s[j + 1..]);
    ParityShift(|rest|);
    forall k | 0 <= k < |pieces| && k % 2 == 1
      ensures IsCodeSpan(pieces[k])
    {
      if k >= 2 {
        ParityShift(k - 2);
        assert pieces[k] == rest[k - 2];
      }
    }
  }

  /** Taking the first match and then the leftmost pieces of the rest keeps
      every span leftmost. */
  lemma PrependLeftmost(s: string, i: nat, j: nat, rest: seq<string>)
    requires i < j < |s| && NoSpanIn(s, 0, i)
    requires |rest| > 0 && Leftmost(rest, s[j + 1..])
    ensures Leftmost([s[..i], s[i..j + 1]] + rest, s)
  {
    var pieces := [s[..i], s[i..j + 1]] + rest;
    assert pieces[2..] == rest;
    assert |pieces[0]| + |pieces[1]| == j + 1;
  }

  /** The pieces of a line, as `line.split(/(`.*?`)/g)` gives them: text,
      span, text, ..., span, text. Put back together they give the line,
      every other piece is a span, and each span is the leftmost match. */
  function SplitCode(s: string): (pieces: seq<string>)
    ensures Alternates(pieces, s)
    ensures Leftmost(pieces, s)
    decreases |s|
  {
    match OpenTick(s, 0)
    case None => [s]
    case Some((i, j)) =>
      SpanOfClose(s, i);
      var rest := SplitCode(s[j + 1..]);
      PrependSpan(s, i, j, rest);
      PrependLeftmost(s, i, j, rest);
      [s[..i], s[i..j + 1]] + rest
  }

  /** A span piece at `a` is a match of the pattern there, closing at its
      last backtick. */
  lemma SpanOfPiece(s: string, a: nat, b: nat)
    requires a < b < |s| && IsCodeSpan(s[a..b + 1])
    ensures SpanAt(s, a) && CloseTick(s, a + 1) == Some(b)
  {
    var t := s[a..b + 1];
    assert forall m | a + 1 <= m < b :: s[m] == t[m - a];
    CloseTickAt(s, a + 1, b);
  }

  /** The first text piece and span of an alternation, and what is left. */
  lemma AlternatesTail(q: seq<string>, s: string)
    requires Alternates(q, s) && |q| >= 3
    ensures var a := |q[0]|; var b := a + |q[1]| - 1;
      && a < b < |s| && q[0] == s[..a] && q[1] == s[a..b + 1]
      && IsCodeSpan(q[1]) && Alternates(q[2..], s[b + 1..])
  {
    var a := |q[0]|;
    var b := a + |q[1]| - 1;
    var rest := q[2..];
    assert q[1..][1..] == rest;
    assert Concat(q) == q[0] + Concat(q[1..]);
    assert Concat(q[1..]) == q[1] + Concat(rest);
    assert IsCodeSpan(q[1]);
    assert s == q[0] + q[1] + Concat(rest);
    ParityShift(|rest|);
    forall k | 0 <= k < |rest| && k % 2 == 1
      ensures IsCodeSpan(rest[k])
    {
      ParityShift(k);
      assert rest[k] == q[k + 2];
    }
  }

  /** Leftmost pieces show where the first match is: there is none when
      they are a single text, and otherwise it spans the second piece. */
  lemma FirstSpan(q: seq<string>, s: string)
    requires Alternates(q, s) && Leftmost(q, s)
    ensures |q| == 1 <==> OpenTick(s, 0).None?
    ensures |q| >= 3 ==> OpenTick(s, 0) == Some((|q[0]|, |q[0]| + |q[1]| - 1))
  {
    if |q| == 1 {
      SingleText(q, s);
    } else {
      var a := |q[0]|;
      var b := a + |q[1]| - 1;
      AlternatesTail(q, s);
      SpanOfPiece(s, a, b);
    }
  }

  /** A single piece is the whole text. */
  lemma SingleText(q: seq<string>, s: string)
    requires Alternates(q, s) && |q| == 1
    ensures q == [s]
  {
    assert q[1..] == [];
    assert Concat(q[1..]) == [];
    assert Concat(q) == q[0] + Concat(q[1..]);
    assert q[0] == s;
  }

  /** Two leftmost alternations of the same text start with the same text
      and span, and what follows is again leftmost in what is left. */
  lemma SameFirstSpan(q: seq<string>, q': seq<string>, s: string)
    requires Alternates(q, s) && Leftmost(q, s)
    requires Alternates(q', s) && Leftmost(q', s)
    requires |q| >= 3
    ensures |q'| >= 3 && q[0] == q'[0] && q[1] == q'[1]
    ensures var b := |q[0]| + |q[1]| - 1;
      && b < |s|
      && Alternates(q[2..], s[b + 1..]) && Leftmost(q[2..], s[b + 1..])
      && Alternates(q'[2..], s[b + 1..]) && Leftmost(q'[2..], s[b + 1..])
  {
    FirstSpan(q, s);
    FirstSpan(q', s);
    AlternatesTail(q, s);
    AlternatesTail(q', s);
  }

  /** Two leftmost alternations of the same text are the same. */
  lemma {:induction false} LeftmostUnique(q: seq<string>, q': seq<string>, s: string)
    requires Alternates(q, s) && Leftmost(q, s)
    requires Alternates(q', s) && Leftmost(q', s)
    ensures q == q'
    decreases |q|
  {
    if |q| == 1 {
      FirstSpan(q, s);
      FirstSpan(q', s);
      SingleText(q, s);
      SingleText(q', s);
    } else {
      SameFirstSpan(q, q', s);
      var b := |q[0]| + |q[1]| - 1;
      LeftmostUnique(q[2..], q'[2..], s[b + 1..]);
      assert q == [q[0], q[1]] + q[2..];
      assert q' == [q'[0], q'[1]] + q'[2..];
    }
  }

  /** The leftmost alternation is unique: any pieces that alternate text and
      span, rebuild `s` and take each span where it first matches are
      exactly the pieces `SplitCode` gives. */
  lemma SplitCodeUnique(q: seq<string>, s: string)
    requires Alternates(q, s) && Leftmost(q, s)
    ensures q == SplitCode(s)
  {
    LeftmostUnique(q, SplitCode(s), s);
  }

  /** The `segments.map` of a paragraph: a piece that starts and ends with a
      backtick is code, shown without them (`slice(1, -1)`); anything else
      is plain text. */
  function Classify(piece: string): Segment {
    if |piece| >= 1 && piece[0] == Backtick && piece[|piece| - 1] == Backtick then
      Code(if |piece| >= 2 then piece[1..|piece| - 1] else [])
    else
      Plain(piece)
  }

  /** Every piece classified, in order. */
  function ClassifyAll(pieces: seq<string>): (r: seq<Segment>)
    ensures |r| == |pieces|
    ensures forall k | 0 <= k < |r| :: r[k] == Classify(pieces[k])
  {
    if |pieces| == 0 then []
    else
      var rest := ClassifyAll(pieces[1..]);
      assert forall k | 1 <= k < |pieces| :: ([Classify(pieces[0])] + rest)[k] == rest[k - 1];
      [Classify(pieces[0])] + rest
  }

  /** The segments of one paragraph line. */
  function Segments(line: string): seq<Segment> {
    ClassifyAll(SplitCode(line))
  }

  /** The text a segment stands for, backticks put back around code. */
  function Unclassify(g: Segment): string {
    match g
    case Code(t) => [Backtick] + t + [Backtick]
    case Plain(t) => t
  }

  function Reassemble(segments: seq<Segment>): string {
    if |segments| == 0 then [] else Unclassify(segments[0]) + Reassemble(segments[1..])
  }

  /** Every span is shown as code, its text without the backticks; and the
      segments give the line back, unless some piece is a single backtick. */
  lemma SegmentsOfLine(line: string)
    ensures var pieces := SplitCode(line);
      var g := Segments(line);
      && |g| == |pieces|
      && (forall k | 0 <= k < |g| && k % 2 == 1 ::
            g[k] == Code(pieces[k][1..|pieces[k]| - 1]) && Backtick !in g[k].text)
      && ((forall k | 0 <= k < |pieces| :: pieces[k] != [Backtick]) ==> Reassemble(g) == line)
  {
    var pieces := SplitCode(line);
    var g := Segments(line);
    forall k | 0 <= k < |g| && k % 2 == 1
      ensures Backtick !in g[k].text
    {
      InnerOfSpan(pieces[k]);
    }
    if forall k | 0 <= k < |pieces| :: pieces[k] != [Backtick] {
      ReassembleClassified(pieces);
    }
  }

  lemma InnerOfSpan(t: string)
    requires IsCodeSpan(t)
    ensures Backtick !in t[1..|t| - 1]
  {
  }

  /** Classifying and putting back loses nothing, except on a piece that is a
      single backtick. */
  lemma {:induction false} ReassembleClassified(pieces: seq<string>)
    requires forall k | 0 <= k < |pieces| :: pieces[k] != [Backtick]
    ensures Reassemble(ClassifyAll(pieces)) == Concat(pieces)
  {
    if |pieces| > 0 {
      var p := pieces[0];
      if |p| >= 2 && p[0] == Backtick && p[|p| - 1] == Backtick {
        assert p == [Backtick] + p[1..|p| - 1] + [Backtick];
      }
      assert Unclassify(Classify(p)) == p;
      ReassembleClassified(pieces[1..]);
    }
  }

  /** A line holding a single backtick becomes one empty code segment: the
      backtick itself is not shown. */
  lemma LoneBacktick(line: string)
    requires line == [Backtick]
    ensures Segments(line) == [Code([])]
    ensures Reassemble(Segments(line)) != line
  {
    assert OpenTick(line, 1) == None;
    assert CloseTick(line, 1) == None;
    assert OpenTick(line, 0) == None;
  }

  /* ----- Grouping lines into blocks ----- */

  function Last<T>(xs: seq<T>): T
    requires |xs| > 0
  {
    xs[|xs| - 1]
  }

  function Init<T>(xs: seq<T>): seq<T>
    requires |xs| > 0
  {
    xs[..|xs| - 1]
  }

  /** The texts of the bullet lines among the first `n` lines, in order. */
  function ListItemsOf(lines: seq<string>, n: nat): seq<string>
    requires n <= |lines|
  {
    if n == 0 then []
    else ListItemsOf(lines, n - 1) + (if IsListLine(lines[n - 1]) then [ItemText(lines[n - 1])] else [])
  }

  /** The segments of the paragraph lines among the first `n` lines, in
      order. */
  function ParagraphsOf(lines: seq<string>, n: nat): seq<seq<Segment>>
    requires n <= |lines|
  {
    if n == 0 then []
    else ParagraphsOf(lines, n - 1) + (if IsParagraphLine(lines[n - 1]) then [Segments(lines[n - 1])] else [])
  }

  /** A bullet line that does not follow another bullet line: where a run of
      bullet lines starts. */
  predicate StartsRun(lines: seq<string>, i: nat)
    requires i < |lines|
  {
    IsListLine(lines[i]) && (i == 0 || !IsListLine(lines[i - 1]))
  }

  /** The number of maximal runs of consecutive bullet lines among the first
      `n` lines. */
  function RunCount(lines: seq<string>, n: nat): nat
    requires n <= |lines|
  {
    if n == 0 then 0
    else RunCount(lines, n - 1) + (if StartsRun(lines, n - 1) then 1 else 0)
  }

  /** The items of all lists among the blocks, in order. */
  function ItemsIn(blocks: seq<Block>): seq<string> {
    if |blocks| == 0 then []
    else ItemsIn(Init(blocks)) + (if Last(blocks).BulletList? then Last(blocks).items else [])
  }

  /** The paragraphs among the blocks, in order. */
  function ParagraphsIn(blocks: seq<Block>): seq<seq<Segment>> {
    if |blocks| == 0 then []
    else ParagraphsIn(Init(blocks)) + (if Last(blocks).Paragraph? then [Last(blocks).segments] else [])
  }

  /** The number of lists among the blocks. */
  function ListCount(blocks: seq<Block>): nat {
    if |blocks| == 0 then 0
    else ListCount(Init(blocks)) + (if Last(blocks).BulletList? then 1 else 0)
  }

  /** Every list among the blocks has at least one item. */
  predicate NoEmptyList(blocks: seq<Block>) {
    forall k | 0 <= k < |blocks| :: blocks[k].BulletList? ==> |blocks[k].items| > 0
  }

  /** One more block extends each block-side definition by that block alone. */
  lemma BlocksStep(blocks: seq<Block>, b: Block)
    ensures ItemsIn(blocks + [b]) == ItemsIn(blocks) + (if b.BulletList? then b.items else [])
    ensures ParagraphsIn(blocks + [b]) == ParagraphsIn(blocks) + (if b.Paragraph? then [b.segments] else [])
    ensures ListCount(blocks + [b]) == ListCount(blocks) + (if b.BulletList? then 1 else 0)
    ensures NoEmptyList(blocks) && (b.BulletList? ==> |b.items| > 0) ==> NoEmptyList(blocks + [b])
  {
    assert Init(blocks + [b]) == blocks;
    assert forall k | 0 <= k < |blocks| :: (blocks + [b])[k] == blocks[k];
  }

  /** The blocks of the first `n` lines, read one line at a time with every
      list closed: a bullet line right after a bullet line adds its text to
      the last list, any other bullet line opens a new list, a paragraph
      line adds a paragraph, and a blank line adds nothing. */
  function BlocksOf(lines: seq<string>, n: nat): (r: seq<Block>)
    requires n <= |lines|
    ensures n > 0 && IsListLine(lines[n - 1]) ==> |r| > 0 && Last(r).BulletList?
  {
    if n == 0 then []
    else
      var prev := BlocksOf(lines, n - 1);
      var line := lines[n - 1];
      if IsListLine(line) then
        if n >= 2 && IsListLine(lines[n - 2]) then
          Init(prev) + [BulletList(Last(prev).items + [ItemText(line)])]
        else
          prev + [BulletList([ItemText(line)])]
      else if Trim(line) != [] then prev + [Paragraph(Segments(line))]
      else prev
  }

  /** Blocks that hold the content of the first `n` lines: the bullet texts
      in order, one non-empty list per run of bullet lines, and one
      paragraph per other non-blank line, in order; nothing else. */
  predicate Accounted(lines: seq<string>, n: nat, blocks: seq<Block>)
    requires n <= |lines|
  {
    && ItemsIn(blocks) == ListItemsOf(lines, n)
    && ParagraphsIn(blocks) == ParagraphsOf(lines, n)
    && ListCount(blocks) == RunCount(lines, n)
    && |blocks| == RunCount(lines, n) + |ParagraphsOf(lines, n)|
    && NoEmptyList(blocks)
  }

  /** A bullet line that continues a run adds its text to the last list. */
  lemma ContinueRunAccounted(lines: seq<string>, n: nat)
    requires 2 <= n <= |lines| && IsListLine(lines[n - 1]) && IsListLine(lines[n - 2])
    requires Accounted(lines, n - 1, BlocksOf(lines, n - 1))
    ensures Accounted(lines, n, BlocksOf(lines, n))
  {
    var prev := BlocksOf(lines, n - 1);
    var x := ItemText(lines[n - 1]);
    ExtendLastList(prev, x);
    assert BlocksOf(lines, n) == Init(prev) + [BulletList(Last(prev).items + [x])];
    assert ListItemsOf(lines, n) == ListItemsOf(lines, n - 1) + [x];
    assert !StartsRun(lines, n - 1);
  }

  /** A bullet line that starts a run opens a list of its text. */
  lemma StartRunAccounted(lines: seq<string>, n: nat)
    requires 1 <= n <= |lines| && StartsRun(lines, n - 1)
    requires Accounted(lines, n - 1, BlocksOf(lines, n - 1))
    ensures Accounted(lines, n, BlocksOf(lines, n))
  {
    var prev := BlocksOf(lines, n - 1);
    var x := ItemText(lines[n - 1]);
    BlocksStep(prev, BulletList([x]));
    assert BlocksOf(lines, n) == prev + [BulletList([x])];
    assert ListItemsOf(lines, n) == ListItemsOf(lines, n - 1) + [x];
  }

  /** A paragraph line adds its paragraph. */
  lemma ParagraphAccounted(lines: seq<string>, n: nat)
    requires 1 <= n <= |lines| && IsParagraphLine(lines[n - 1])
    requires Accounted(lines, n - 1, BlocksOf(lines, n - 1))
    ensures Accounted(lines, n, BlocksOf(lines, n))
  {
    var prev := BlocksOf(lines, n - 1);
    var g := Segments(lines[n - 1]);
    BlocksStep(prev, Paragraph(g));
    assert BlocksOf(lines, n) == prev + [Paragraph(g)];
    assert ListItemsOf(lines, n) == ListItemsOf(lines, n - 1);
    assert ParagraphsOf(lines, n) == ParagraphsOf(lines, n - 1) + [g];
  }

  /** A blank line adds nothing. */
  lemma BlankAccounted(lines: seq<string>, n: nat)
    requires 1 <= n <= |lines| && !IsListLine(lines[n - 1]) && Trim(lines[n - 1]) == []
    requires Accounted(lines, n - 1, BlocksOf(lines, n - 1))
    ensures Accounted(lines, n, BlocksOf(lines, n))
  {
    assert BlocksOf(lines, n) == BlocksOf(lines, n - 1);
    assert ListItemsOf(lines, n) == ListItemsOf(lines, n - 1);
    assert ParagraphsOf(lines, n) == ParagraphsOf(lines, n - 1);
  }

  /** The blocks of every prefix account for its lines. */
  lemma {:induction false} BlocksOfAccount(lines: seq<string>, n: nat)
    requires n <= |lines|
    ensures Accounted(lines, n, BlocksOf(lines, n))
  {
    if n > 0 {
      BlocksOfAccount(lines, n - 1);
      var line := lines[n - 1];
      if IsListLine(line) {
        if n >= 2 && IsListLine(lines[n - 2]) {
          ContinueRunAccounted(lines, n);
        } else {
          StartRunAccounted(lines, n);
        }
      } else if Trim(line) != [] {
        ParagraphAccounted(lines, n);
      } else {
        BlankAccounted(lines, n);
      }
    }
  }

  /** Adding an item to the last list adds it to the items and nothing
      else. */
  lemma ExtendLastList(blocks: seq<Block>, x: string)
    requires |blocks| > 0 && Last(blocks).BulletList?
    ensures var r := Init(blocks) + [BulletList(Last(blocks).items + [x])];
      && ItemsIn(r) == ItemsIn(blocks) + [x]
      && ParagraphsIn(r) == ParagraphsIn(blocks)
      && ListCount(r) == ListCount(blocks)
      && |r| == |blocks|
      && (NoEmptyList(blocks) ==> NoEmptyList(r))
  {
    var b := Last(blocks);
    assert blocks == Init(blocks) + [b];
    BlocksStep(Init(blocks), b);
    BlocksStep(Init(blocks), BulletList(b.items + [x]));
    var r := Init(blocks) + [BulletList(b.items + [x])];
    if NoEmptyList(blocks) {
      assert forall k | 0 <= k < |blocks| - 1 :: r[k] == blocks[k];
    }
  }

  /** The list still being collected is closed onto the blocks. */
  function Closed(blocks: seq<Block>, pending: seq<string>): seq<Block> {
    if pending == [] then blocks else blocks + [BulletList(pending)]
  }

  /** What the loop holds after `i` lines: with the pending list closed, the
      blocks of those lines; and a list is pending exactly when the last
      line read was a bullet. */
  predicate Collected(lines: seq<string>, i: nat, blocks: seq<Block>, pending: seq<string>)
    requires i <= |lines|
  {
    && Closed(blocks, pending) == BlocksOf(lines, i)
    && (pending != [] <==> i > 0 && IsListLine(lines[i - 1]))
  }

  /** The loop body on one line. */
  function GroupLine(blocks: seq<Block>, pending: seq<string>, line: string): (seq<Block>, seq<string>) {
    if IsListLine(line) then (blocks, pending + [ItemText(line)])
    else
      var flushed := Closed(blocks, pending);
      if Trim(line) != [] then (flushed + [Paragraph(Segments(line))], [])
      else (flushed, [])
  }

  /** Reading one more line the loop's way, with the list kept open in
      `pending`, agrees with reading it with every list closed. */
  lemma GroupLineFollowsBlocksOf(lines: seq<string>, i: nat, blocks: seq<Block>, pending: seq<string>)
    requires i < |lines| && Collected(lines, i, blocks, pending)
    ensures var (b, p) := GroupLine(blocks, pending, lines[i]); Collected(lines, i + 1, b, p)
  {
    var line := lines[i];
    var prev := BlocksOf(lines, i);
    assert prev == Closed(blocks, pending);
    if IsListLine(line) {
      var x := ItemText(line);
      if pending != [] {
        assert Init(prev) == blocks && Last(prev).items == pending;
        assert BlocksOf(lines, i + 1) == blocks + [BulletList(pending + [x])];
      } else {
        assert BlocksOf(lines, i + 1) == blocks + [BulletList([x])];
        assert pending + [x] == [x];
      }
    } else if Trim(line) != [] {
      assert BlocksOf(lines, i + 1) == prev + [Paragraph(Segments(line))];
    } else {
      assert BlocksOf(lines, i + 1) == prev;
    }
  }

  /** The renderer's loop: bullet texts collect in `pending`; any other line
      first emits the pending list, then, if it is not blank, a paragraph;
      a list still pending at the end is emitted last. The result is the
      blocks of all the lines, in document order: each run of bullet lines
      one list of their texts, each other non-blank line a paragraph. */
  method Render(content: string) returns (blocks: seq<Block>)
    ensures var lines := Split(content, '\n');
      && blocks == BlocksOf(lines, |lines|)
      && ItemsIn(blocks) == ListItemsOf(lines, |lines|)
      && ParagraphsIn(blocks) == ParagraphsOf(lines, |lines|)
      && ListCount(blocks) == RunCount(lines, |lines|)
      && |blocks| == RunCount(lines, |lines|) + |ParagraphsOf(lines, |lines|)|
    ensures NoEmptyList(blocks)
  {
    var lines := Split(content, '\n');
    blocks := [];
    var pending: seq<string> := [];
    var i := 0;
    while i < |lines|
      invariant 0 <= i <= |lines|
      invariant Collected(lines, i, blocks, pending)
    {
      GroupLineFollowsBlocksOf(lines, i, blocks, pending);
      var (b, p) := GroupLine(blocks, pending, lines[i]);
      blocks, pending := b, p;
      i := i + 1;
    }
    blocks := Closed(blocks, pending);
    BlocksOfAccount(lines, |lines|);
  }
}

/** Two small documents, worked through the reference. */
module MarkdownExamples {
  import opened Wrappers
  import opened Text
  import opened Markdown

  /** A text without white space at either end is its own trim. */
  lemma TrimKeeps(s: string)
    requires |s| > 0 && !IsJsSpace(s[0]) && !IsJsSpace(s[|s| - 1])
    ensures Trim(s) == s
  {
    assert SkipSpace(s, 0) == 0;
    assert SkipSpaceBack(s, 0, |s|) == |s|;
  }

  /** A bullet line whose marker is followed by one character. */
  lemma ShortBullet(line: string, c: char)
    requires line == ['*', ' ', c] && !IsJsSpace(c)
    ensures IsListLine(line) && ItemText(line) == [c]
  {
    TrimKeeps(line);
    assert line[..2] == "* ";
  }

  /** A paragraph followed by a bullet: the paragraph comes first. */
  lemma ParagraphThenList(lines: seq<string>)
    requires |lines| == 2 && lines[0] == "x" && lines[1] == "* a"
    ensures BlocksOf(lines, 2) == [Paragraph(Segments("x")), BulletList(["a"])]
  {
    TrimKeeps("x");
    assert !IsListLine(lines[0]);
    assert BlocksOf(lines, 1) == [Paragraph(Segments("x"))];
    ShortBullet(lines[1], 'a');
  }

  /** A one-character bullet after a line that is not a bullet opens a
      list. */
  lemma OpensList(lines: seq<string>, n: nat, c: char)
    requires 1 <= n <= |lines| && lines[n - 1] == ['*', ' ', c] && !IsJsSpace(c)
    requires n == 1 || !IsListLine(lines[n - 2])
    ensures BlocksOf(lines, n) == BlocksOf(lines, n - 1) + [BulletList([[c]])]
  {
    ShortBullet(lines[n - 1], c);
  }

  /** A one-character bullet after a bullet joins the last list. */
  lemma JoinsList(lines: seq<string>, n: nat, c: char)
    requires 2 <= n <= |lines| && lines[n - 1] == ['*', ' ', c] && !IsJsSpace(c)
    requires IsListLine(lines[n - 2])
    ensures var prev := BlocksOf(lines, n - 1);
      BlocksOf(lines, n) == Init(prev) + [BulletList(Last(prev).items + [[c]])]
  {
    ShortBullet(lines[n - 1], c);
  }

  /** An empty line adds nothing. */
  lemma EmptyLineAddsNothing(lines: seq<string>, n: nat)
    requires 1 <= n <= |lines| && lines[n - 1] == []
    ensures BlocksOf(lines, n) == BlocksOf(lines, n - 1)
  {
    assert !IsListLine(lines[n - 1]);
  }

  /** Two bullets in a row make one list of both texts. */
  lemma TwoBullets(lines: seq<string>)
    requires |lines| >= 2 && lines[0] == "* a" && lines[1] == "* b"
    ensures BlocksOf(lines, 2) == [BulletList(["a", "b"])]
  {
    OpensList(lines, 1, 'a');
    var one := BlocksOf(lines, 1);
    assert one == [BulletList(["a"])];
    ShortBullet(lines[0], 'a');
    JoinsList(lines, 2, 'b');
    assert Init(one) == [] && Last(one).items + ["b"] == ["a", "b"];
  }

  /** A blank line between bullets ends the first list. */
  lemma BlankEndsList(lines: seq<string>)
    requires |lines| == 4 && lines[0] == "* a" && lines[1] == "* b" && lines[2] == "" && lines[3] == "* c"
    ensures BlocksOf(lines, 4) == [BulletList(["a", "b"]), BulletList(["c"])]
  {
    TwoBullets(lines);
    EmptyLineAddsNothing(lines, 3);
    assert !IsListLine(lines[2]);
    OpensList(lines, 4, 'c');
    assert BlocksOf(lines, 4) == [BulletList(["a", "b"])] + [BulletList(["c"])];
  }

  /** Of the three backticks in "`a`b`", the first two close a span; the
      third is left in the text after it. */
  lemma FirstTicksPair(s: string)
    requires s == "`a`b`"
    ensures SplitCode(s) == ["", "`a`", "b`"]
  {
    var q := ["", "`a`", "b`"];
    assert q[1..][1..] == ["b`"] && q[1..][1..][1..] == [];
    assert Concat(q) == s;
    assert IsCodeSpan(q[1]);
    assert forall k | 0 <= k < |q| && k % 2 == 1 :: k == 1;
    var t := s[3..];
    assert t == "b`";
    assert CloseTick(t, 2) == None;
    assert !SpanAt(t, 0) && !SpanAt(t, 1);
    assert Leftmost(q[2..], t);
    SplitCodeUnique(q, s);
  }
}
