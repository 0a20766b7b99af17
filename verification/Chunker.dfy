/** The paragraph chunker (src/decision_system/data_sources/parser.py): a greedy packer over the
    stripped pieces of a regular-expression split. */
module Chunking {
  import opened Prelude

  const LIMIT: nat := 1000

  /** White space as both `str.strip` and the class `\s` of regular expressions see it. */
  predicate IsSpace(c: char) {
    var n := c as int;
    9 <= n <= 13 || 28 <= n <= 32 || n == 0x85 || n == 0xA0 || n == 0x1680 || 0x2000 <= n <= 0x200A
    || n == 0x2028 || n == 0x2029 || n == 0x202F || n == 0x205F || n == 0x3000
  }

  // ------------------------------------------------------------------
  // Splitting at blank lines

  /** A match of the separator, a newline, white space and another newline, from `i` to `e`. */
  ghost predicate IsBreak(s: string, i: int, e: int) {
    && 0 <= i && i + 2 <= e <= |s|
    && s[i] == '\n' && s[e - 1] == '\n'
    && forall k :: i <= k < e ==> IsSpace(s[k])
  }

  /** The last newline of the run of white space that starts at `k`. */
  function LastNewline(s: string, k: nat): (r: Option<nat>)
    requires k <= |s|
    ensures r.Some? ==>
              && k <= r.value < |s| && s[r.value] == '\n'
              && (forall j :: k <= j <= r.value ==> IsSpace(s[j]))
    ensures forall j :: k <= j < |s| && s[j] == '\n' && (forall m :: k <= m <= j ==> IsSpace(s[m])) ==>
                          r.Some? && j <= r.value
    decreases |s| - k
  {
    if k == |s| || !IsSpace(s[k]) then None
    else
      var later := LastNewline(s, k + 1);
      if later.Some? then later else if s[k] == '\n' then Some(k) else None
  }

  /** The separator found by the search: the leftmost match at or after `i`, and of those that
      start there the longest, because the repetition is greedy. */
  function FirstBreak(s: string, i: nat): (r: Option<(nat, nat)>)
    requires i <= |s|
    ensures r.Some? ==> i <= r.value.0 && IsBreak(s, r.value.0, r.value.1)
    ensures r.Some? ==> forall e :: IsBreak(s, r.value.0, e) ==> e <= r.value.1
    ensures forall b, e :: i <= b && IsBreak(s, b, e) ==> r.Some? && r.value.0 <= b
    decreases |s| - i
  {
    if i == |s| then None
    else
      var last := if s[i] == '\n' then LastNewline(s, i + 1) else None;
      assert forall e :: IsBreak(s, i, e) ==> last.Some? && e - 1 <= last.value by { LongestBreak(s, i); }
      if last.Some? then Some((i, last.value + 1)) else FirstBreak(s, i + 1)
  }

  lemma LongestBreak(s: string, i: nat)
    requires i < |s|
    ensures forall e :: IsBreak(s, i, e) ==> LastNewline(s, i + 1).Some? && e - 1 <= LastNewline(s, i + 1).value
  {
    forall e | IsBreak(s, i, e) ensures LastNewline(s, i + 1).Some? && e - 1 <= LastNewline(s, i + 1).value {
      assert s[e - 1] == '\n';
    }
  }

  /** The pieces between separators. */
  function Split(s: string): (pieces: seq<string>)
    ensures pieces != []
    decreases |s|
  {
    match FirstBreak(s, 0)
    case None => [s]
    case Some((b, e)) => [s[..b]] + Split(s[e..])
  }

  /** The first position at or after `i` that is not white space. */
  function SkipSpace(s: string, i: nat): (j: nat)
    requires i <= |s|
    ensures i <= j <= |s|
    ensures forall k :: i <= k < j ==> IsSpace(s[k])
    ensures j < |s| ==> !IsSpace(s[j])
    decreases |s| - i
  {
    if i < |s| && IsSpace(s[i]) then SkipSpace(s, i + 1) else i
  }

  /** The end of `s` without trailing white space, not going below `i`. */
  function TrimEnd(s: string, i: nat, n: nat): (j: nat)
    requires i <= n <= |s|
    ensures i <= j <= n
    ensures forall k :: j <= k < n ==> IsSpace(s[k])
    ensures i < j ==> !IsSpace(s[j - 1])
  {
    if i < n && IsSpace(s[n - 1]) then TrimEnd(s, i, n - 1) else n
  }

  function Strip(s: string): (r: string)
    ensures |r| <= |s|
    ensures r != "" ==> !IsSpace(r[0]) && !IsSpace(r[|r| - 1])
    ensures r == "" <==> forall k :: 0 <= k < |s| ==> IsSpace(s[k])
  {
    var a := SkipSpace(s, 0);
    var b := TrimEnd(s, a, |s|);
    assert a < |s| ==> a < b;
    s[a..b]
  }

  /** A text that starts and ends with something visible is stripped already. */
  lemma StripClean(s: string)
    requires s == "" || (!IsSpace(s[0]) && !IsSpace(s[|s| - 1]))
    ensures Strip(s) == s
  {
  }

  /** The stripped pieces, without the empty ones. */
  function Stripped(pieces: seq<string>): seq<string> {
    if pieces == [] then []
    else
      var p := Strip(pieces[0]);
      (if p == "" then [] else [p]) + Stripped(pieces[1..])
  }

  function Paragraphs(text: string): seq<string> {
    Stripped(Split(text))
  }

  /** A paragraph as the chunker sees it: visible at both ends, without a separator inside. */
  ghost predicate Clean(p: string) {
    && p != "" && !IsSpace(p[0]) && !IsSpace(p[|p| - 1])
    && forall i, e :: !IsBreak(p, i, e)
  }

  ghost predicate AllClean(ps: seq<string>) {
    forall i :: 0 <= i < |ps| ==> Clean(ps[i])
  }

  /** A separator in part of a text is a separator of the text. */
  lemma BreakInside(s: string, a: nat, b: nat, i: int, e: int)
    requires a <= b <= |s| && IsBreak(s[a..b], i, e)
    ensures IsBreak(s, a + i, a + e)
  {
    forall k | a + i <= k < a + e ensures IsSpace(s[k]) {
      assert s[a..b][k - a] == s[k];
    }
  }

  /** No piece of the split contains a separator. */
  lemma {:induction false} PiecesHaveNoBreak(s: string, k: nat, i: int, e: int)
    requires k < |Split(s)|
    ensures !IsBreak(Split(s)[k], i, e)
    decreases |s|
  {
    match FirstBreak(s, 0)
    case None =>
    case Some((b, end)) =>
      if k == 0 {
        if IsBreak(s[..b], i, e) {
          BreakInside(s, 0, b, i, e);
        }
      } else {
        PiecesHaveNoBreak(s[end..], k - 1, i, e);
      }
  }

  lemma StripHasNoBreak(s: string, i: int, e: int)
    requires forall i, e :: !IsBreak(s, i, e)
    ensures !IsBreak(Strip(s), i, e)
  {
    var a := SkipSpace(s, 0);
    var b := TrimEnd(s, a, |s|);
    if IsBreak(s[a..b], i, e) {
      BreakInside(s, a, b, i, e);
    }
  }

  lemma {:induction false} StrippedClean(pieces: seq<string>)
    requires forall k, i, e :: 0 <= k < |pieces| ==> !IsBreak(pieces[k], i, e)
    ensures AllClean(Stripped(pieces))
  {
    if pieces != [] {
      StrippedClean(pieces[1..]);
      forall i, e ensures !IsBreak(Strip(pieces[0]), i, e) {
        StripHasNoBreak(pieces[0], i, e);
      }
    }
  }

  lemma ParagraphsAreClean(text: string)
    ensures AllClean(Paragraphs(text))
  {
    forall k, i, e | 0 <= k < |Split(text)| ensures !IsBreak(Split(text)[k], i, e) {
      PiecesHaveNoBreak(text, k, i, e);
    }
    StrippedClean(Split(text));
  }

  // ------------------------------------------------------------------
  // Joining with a blank line

  function Join(ps: seq<string>): string {
    if ps == [] then ""
    else if |ps| == 1 then ps[0]
    else ps[0] + "\n\n" + Join(ps[1..])
  }

  lemma {:induction false} JoinAppend(ps: seq<string>, p: string)
    requires ps != []
    ensures Join(ps + [p]) == Join(ps) + "\n\n" + p
  {
    if |ps| == 1 {
      assert (ps + [p])[1..] == [p];
    } else {
      assert (ps + [p])[1..] == ps[1..] + [p];
      JoinAppend(ps[1..], p);
      assert ps[0] + "\n\n" + (Join(ps[1..]) + "\n\n" + p) == (ps[0] + "\n\n" + Join(ps[1..])) + "\n\n" + p;
    }
  }

  /** Where a separator can be in a clean paragraph followed by a blank line and visible text. */
  lemma OnlyBreak(p: string, rest: string, s: string, b: int, e: int)
    requires Clean(p) && rest != "" && !IsSpace(rest[0])
    requires s == p + "\n\n" + rest && IsBreak(s, b, e)
    ensures b >= |p|
    ensures b == |p| ==> e <= |p| + 2
  {
    var n := |p|;
    assert s[n - 1] == p[n - 1] && s[n + 2] == rest[0];
    if b < n {
      if e <= n {
        assert s[..n] == p;
        assert forall k :: b <= k < e ==> p[k] == s[k];
        assert IsBreak(p, b, e);
      }
    }
  }

  /** The first separator after a clean paragraph is the blank line that was put there. */
  lemma FirstBreakAfter(p: string, rest: string, s: string)
    requires Clean(p) && rest != "" && !IsSpace(rest[0])
    requires s == p + "\n\n" + rest
    ensures FirstBreak(s, 0) == Some((|p|, |p| + 2))
  {
    assert IsBreak(s, |p|, |p| + 2);
    var r := FirstBreak(s, 0);
    OnlyBreak(p, rest, s, r.value.0, r.value.1);
  }

  /** Splitting a join of clean paragraphs gives the paragraphs back. */
  lemma {:induction false} SplitJoin(ps: seq<string>)
    requires ps != [] && AllClean(ps)
    ensures Split(Join(ps)) == ps
  {
    if |ps| == 1 {
      assert FirstBreak(ps[0], 0).None?;
    } else {
      var rest := Join(ps[1..]);
      SplitJoin(ps[1..]);
      JoinStart(ps[1..]);
      var s := ps[0] + "\n\n" + rest;
      FirstBreakAfter(ps[0], rest, s);
      assert s[..|ps[0]|] == ps[0] && s[|ps[0]| + 2..] == rest;
    }
  }

  lemma JoinStart(ps: seq<string>)
    requires ps != [] && AllClean(ps)
    ensures Join(ps) != "" && Join(ps)[0] == ps[0][0]
  {
  }

  lemma {:induction false} StrippedOfClean(ps: seq<string>)
    requires AllClean(ps)
    ensures Stripped(ps) == ps
  {
    if ps != [] {
      StripClean(ps[0]);
      StrippedOfClean(ps[1..]);
    }
  }

  /** The paragraphs of a joined list of clean paragraphs are that list. */
  lemma ParagraphsOfJoin(ps: seq<string>)
    requires AllClean(ps)
    ensures Paragraphs(Join(ps)) == ps
  {
    if ps == [] {
      assert FirstBreak("", 0).None?;
      assert Split("") == [""];
      StripClean("");
      assert Stripped([""]) == Stripped([""][1..]);
    } else {
      SplitJoin(ps);
      StrippedOfClean(ps);
    }
  }

  // ------------------------------------------------------------------
  // Packing

  ghost function Flatten(groups: seq<seq<string>>): seq<string> {
    if groups == [] then [] else groups[0] + Flatten(groups[1..])
  }

  function Texts(groups: seq<seq<string>>): seq<string> {
    if groups == [] then [] else [Join(groups[0])] + Texts(groups[1..])
  }

  /** The groups of consecutive paragraphs that become chunks, given the group under way: a
      paragraph joins it while their lengths together stay below the limit. */
  function Pack(ps: seq<string>, current: seq<string>): seq<seq<string>> {
    var done := if current == [] then [] else [current];
    if ps == [] then done
    else if |Join(current)| + |ps[0]| < LIMIT then Pack(ps[1..], current + [ps[0]])
    else done + Pack(ps[1..], [ps[0]])
  }

  /** What makes a grouping greedy, said without running the packer: no group is empty, every
      paragraph after the first still fitted, and the first paragraph of the next group did not. */
  ghost predicate Fits(group: seq<string>) {
    group != [] && forall k :: 1 <= k < |group| ==> |Join(group[..k])| + |group[k]| < LIMIT
  }

  ghost predicate Packed(groups: seq<seq<string>>) {
    && (forall i :: 0 <= i < |groups| ==> Fits(groups[i]))
    && (forall i :: 0 <= i < |groups| - 1 ==> |Join(groups[i])| + |groups[i + 1][0]| >= LIMIT)
  }

  lemma FitsAppend(group: seq<string>, p: string)
    requires group == [] || (Fits(group) && |Join(group)| + |p| < LIMIT)
    ensures Fits(group + [p])
  {
    forall k | 1 <= k < |group + [p]| ensures |Join((group + [p])[..k])| + |(group + [p])[k]| < LIMIT {
      assert (group + [p])[..k] == group[..k];
      assert k == |group| ==> group[..k] == group;
    }
  }

  lemma Prepend(group: seq<string>, groups: seq<seq<string>>, p: string)
    requires Packed(groups) && groups != [] && [p] <= groups[0]
    requires Fits(group) && |Join(group)| + |p| >= LIMIT
    ensures Packed([group] + groups) && Flatten([group] + groups) == group + Flatten(groups)
  {
    assert ([group] + groups)[1..] == groups;
  }

  /** The packer produces a greedy grouping of exactly the paragraphs, in order. */
  lemma {:induction false} PackIsPacked(ps: seq<string>, current: seq<string>)
    requires current == [] || Fits(current)
    ensures Packed(Pack(ps, current))
    ensures Flatten(Pack(ps, current)) == current + ps
    ensures current != [] ==> Pack(ps, current) != [] && current <= Pack(ps, current)[0]
    decreases |ps|
  {
    hide Join, Fits;
    if ps == [] {
      assert Flatten([current]) == current + Flatten([]);
    } else {
      var p, rest := ps[0], ps[1..];
      assert ps == [p] + rest;
      if |Join(current)| + |p| < LIMIT {
        FitsAppend(current, p);
        PackIsPacked(rest, current + [p]);
        assert current + [p] + rest == current + ps;
      } else {
        FitsAppend([], p);
        assert [] + [p] == [p];
        PackIsPacked(rest, [p]);
        assert [] + Pack(rest, [p]) == Pack(rest, [p]);
        if current != [] {
          Prepend(current, Pack(rest, [p]), p);
        }
      }
    }
  }

  /** There is only one greedy grouping of a list of paragraphs. */
  lemma {:induction false} PackedIsUnique(a: seq<seq<string>>, b: seq<seq<string>>)
    requires Packed(a) && Packed(b) && Flatten(a) == Flatten(b)
    ensures a == b
  {
    if a == [] || b == [] {
      if a != [] { SomethingFlat(a); }
      if b != [] { SomethingFlat(b); }
    } else {
      FirstGroupNotShorter(a, b);
      FirstGroupNotShorter(b, a);
      assert a[0] == Flatten(a)[..|a[0]|] && b[0] == Flatten(b)[..|b[0]|];
      assert Flatten(a)[|a[0]|..] == Flatten(a[1..]) && Flatten(b)[|b[0]|..] == Flatten(b[1..]);
      PackedIsUnique(a[1..], b[1..]);
      assert a == [a[0]] + a[1..] && b == [b[0]] + b[1..];
    }
  }

  lemma SomethingFlat(a: seq<seq<string>>)
    requires a != [] && Packed(a)
    ensures Flatten(a) != []
  {
    assert Fits(a[0]);
  }

  /** A group that starts the list fits up to each of its paragraphs. */
  lemma PrefixFits(f: seq<string>, group: seq<string>, k: nat)
    requires group <= f && Fits(group) && 1 <= k < |group|
    ensures |Join(f[..k])| + |f[k]| < LIMIT
  {
    assert f[..k] == group[..k] && f[k] == group[k];
  }

  /** The paragraph after the first group did not fit. */
  lemma SecondGroup(a: seq<seq<string>>)
    requires a != [] && Packed(a) && |Flatten(a)| > |a[0]|
    ensures var f := Flatten(a); a[0] != [] && |Join(f[..|a[0]|])| + |f[|a[0]|]| >= LIMIT
  {
    assert Flatten(a) == a[0] + Flatten(a[1..]) && Fits(a[0]);
    if |a| > 1 {
      assert Fits(a[1]) && a[1..][0] == a[1];
      assert Flatten(a[1..])[0] == a[1][0];
      assert Flatten(a)[..|a[0]|] == a[0];
    }
  }

  lemma FirstGroupNotShorter(a: seq<seq<string>>, b: seq<seq<string>>)
    requires a != [] && b != [] && Packed(a) && Packed(b) && Flatten(a) == Flatten(b)
    ensures |a[0]| >= |b[0]|
  {
    hide Join, Fits;
    assert b[0] <= Flatten(b);
    if |a[0]| < |b[0]| {
      SecondGroup(a);
      PrefixFits(Flatten(b), b[0], |a[0]|);
    }
  }

  // ------------------------------------------------------------------
  // The chunks of a text

  /** The texts of the chunks of a text. */
  function ChunkTexts(text: string): seq<string> {
    Texts(Pack(Paragraphs(text), []))
  }

  /** A chunk identifier is a digest of the source, the index and the first 200 characters, cut to 16
      hexadecimal digits; it is taken as injective. */
  datatype ChunkId = Digest(sourceId: SourceId, index: nat, head: string)

  function MakeChunkId(sourceId: SourceId, index: nat, text: string): ChunkId {
    var t := Strip(text);
    Digest(sourceId, index, if |t| <= 200 then t else t[..200])
  }

  datatype Chunk = Chunk(id: ChunkId, sourceId: SourceId, workspaceId: string, index: nat, text: string)

  function MakeChunk(sourceId: SourceId, workspaceId: string, index: nat, text: string): Chunk {
    Chunk(MakeChunkId(sourceId, index, text), sourceId, workspaceId, index, text)
  }

  /** The chunk records of a list of texts, numbered from `n`. */
  function Chunks(texts: seq<string>, sourceId: SourceId, workspaceId: string, n: nat): (r: seq<Chunk>)
    ensures |r| == |texts|
    ensures forall i :: 0 <= i < |r| ==> r[i] == MakeChunk(sourceId, workspaceId, n + i, texts[i])
  {
    seq(|texts|, i requires 0 <= i < |texts| => MakeChunk(sourceId, workspaceId, n + i, texts[i]))
  }

  /** What a stored chunk carries: its text, its place, and the source and workspace it belongs to. */
  lemma ChunkCarries(texts: seq<string>, sourceId: SourceId, workspaceId: string, i: nat)
    requires i < |texts|
    ensures var c := Chunks(texts, sourceId, workspaceId, 0)[i];
            && c.text == texts[i] && c.index == i && c.sourceId == sourceId && c.workspaceId == workspaceId
            && c.id == MakeChunkId(sourceId, i, texts[i])
  {
    hide MakeChunkId;
  }

  /** Two chunks have the same identifier if and only if they have the same source and place, and their
      stripped texts agree in the first 200 characters. */
  lemma ChunkIdIff(a: SourceId, i: nat, s: string, b: SourceId, j: nat, t: string)
    ensures MakeChunkId(a, i, s) == MakeChunkId(b, j, t) <==>
            && a == b && i == j && Min(|Strip(s)|, 200) == Min(|Strip(t)|, 200)
            && forall k :: 0 <= k < Min(|Strip(s)|, 200) ==> Strip(s)[k] == Strip(t)[k]
  {
    hide Strip;
    var x, y := MakeChunkId(a, i, s).head, MakeChunkId(b, j, t).head;
    assert |x| == Min(|Strip(s)|, 200) && forall k :: 0 <= k < |x| ==> x[k] == Strip(s)[k];
    assert |y| == Min(|Strip(t)|, 200) && forall k :: 0 <= k < |y| ==> y[k] == Strip(t)[k];
  }

  function JoinTo(current: string, p: string): string {
    if |current| == 0 then p else current + "\n\n" + p
  }

  lemma JoinGrows(group: seq<string>, p: string)
    requires forall i :: 0 <= i < |group| ==> |group[i]| > 0
    ensures Join(group + [p]) == JoinTo(Join(group), p)
    ensures |Join(group)| == 0 <==> |group| == 0
  {
    if group == [] {
      assert group + [p] == [p];
    } else {
      JoinAppend(group, p);
    }
  }

  lemma {:induction false} BlankHasNoParagraphs(s: string)
    requires forall k :: 0 <= k < |s| ==> IsSpace(s[k])
    ensures Paragraphs(s) == []
    decreases |s|
  {
    var pieces := Split(s);
    match FirstBreak(s, 0)
    case None =>
      assert pieces == [s] && [s][1..] == [];
      assert Stripped([s]) == (if Strip(s) == "" then [] else [Strip(s)]) + Stripped([s][1..]);
    case Some((b, e)) =>
      BlankHasNoParagraphs(s[e..]);
      assert pieces[1..] == Split(s[e..]);
  }

  /** The texts still to come, before the piece `n` with a group under way. */
  function Remaining(pieces: seq<string>, n: nat, group: seq<string>): seq<string>
    requires n <= |pieces|
  {
    Texts(Pack(Stripped(pieces[n..]), group))
  }

  function Pending(group: seq<string>): seq<string> {
    if group == [] then [] else [Join(group)]
  }

  lemma NextPiece(pieces: seq<string>, n: nat, group: seq<string>)
    requires n < |pieces|
    ensures var p := Strip(pieces[n]);
            Remaining(pieces, n, group) ==
            if |p| == 0 then Remaining(pieces, n + 1, group)
            else if |Join(group)| + |p| < LIMIT then Remaining(pieces, n + 1, group + [p])
            else Pending(group) + Remaining(pieces, n + 1, [p])
  {
    var p, rest := Strip(pieces[n]), Stripped(pieces[n + 1..]);
    assert pieces[n..][1..] == pieces[n + 1..];
    if |p| == 0 {
      assert Stripped(pieces[n..]) == rest;
    } else {
      assert Stripped(pieces[n..]) == [p] + rest && ([p] + rest)[1..] == rest;
      TextsOfMore(group, Pack(rest, [p]));
      assert [] + Pack(rest, [p]) == Pack(rest, [p]) && [] + Texts(Pack(rest, [p])) == Texts(Pack(rest, [p]));
    }
  }

  lemma Regroup(done: seq<string>, middle: seq<string>, rest: seq<string>)
    ensures done + (middle + rest) == (done + middle) + rest
  {
  }

  lemma FirstPiece(text: string)
    ensures [] + Remaining(Split(text), 0, []) == ChunkTexts(text)
  {
    assert Split(text)[0..] == Split(text);
    assert [] + ChunkTexts(text) == ChunkTexts(text);
  }

  lemma LastPiece(pieces: seq<string>, group: seq<string>)
    ensures Remaining(pieces, |pieces|, group) == Pending(group)
  {
    assert pieces[|pieces|..] == [];
    TextsOfMore(group, []);
    assert [group] + [] == [group] && [Join(group)] + [] == [Join(group)];
  }

  lemma MoreChunks(texts: seq<string>, sourceId: SourceId, workspaceId: string, group: seq<string>)
    ensures Chunks(texts + Pending(group), sourceId, workspaceId, 0)
         == Chunks(texts, sourceId, workspaceId, 0)
            + if group == [] then [] else [MakeChunk(sourceId, workspaceId, |texts|, Join(group))]
  {
    hide MakeChunk;
  }

  lemma NoTexts(sourceId: SourceId, workspaceId: string)
    ensures Chunks([], sourceId, workspaceId, 0) == [] && Join([]) == ""
  {
  }

  lemma BlankHasNoTexts(text: string)
    requires text == "" || Strip(text) == ""
    ensures ChunkTexts(text) == []
  {
    hide Split, FirstBreak;
    BlankHasNoParagraphs(text);
  }

  /** The loop of `chunk`: it turns a text into the chunks of its greedy grouping, numbered from
      zero, whatever the source, and yields none for a blank text. */
  method ChunkText(text: string, sourceId: SourceId, workspaceId: string) returns (chunks: seq<Chunk>)
    ensures chunks == Chunks(ChunkTexts(text), sourceId, workspaceId, 0)
  {
    hide Join, MakeChunk, IsSpace, Strip, Split, Remaining, Pending, ChunkTexts, Chunks, JoinTo;
    NoTexts(sourceId, workspaceId);
    if text == "" || Strip(text) == "" {
      BlankHasNoTexts(text);
      return [];
    }
    var paragraphs := Split(text);
    var currentText, chunkIndex := "", 0;
    ghost var group, done := [], [];
    chunks := [];
    FirstPiece(text);
    for n := 0 to |paragraphs|
      invariant currentText == Join(group)
      invariant forall i :: 0 <= i < |group| ==> |group[i]| > 0
      invariant done + Remaining(paragraphs, n, group) == ChunkTexts(text)
      invariant chunkIndex == |chunks| == |done| && chunks == Chunks(done, sourceId, workspaceId, 0)
    {
      var para := Strip(paragraphs[n]);
      NextPiece(paragraphs, n, group);
      if |para| == 0 {
        continue;
      }
      JoinGrows(group, para);
      if |currentText| + |para| < LIMIT {
        currentText := JoinTo(currentText, para);
        group := group + [para];
      } else {
        MoreChunks(done, sourceId, workspaceId, group);
        Regroup(done, Pending(group), Remaining(paragraphs, n + 1, [para]));
        JoinOne(para);
        if |currentText| > 0 {
          chunks := chunks + [MakeChunk(sourceId, workspaceId, chunkIndex, currentText)];
          chunkIndex := chunkIndex + 1;
        }
        done := done + Pending(group);
        currentText := para;
        group := [para];
      }
    }
    LastPiece(paragraphs, group);
    JoinGrows(group, "");
    MoreChunks(done, sourceId, workspaceId, group);
    if |currentText| > 0 {
      chunks := chunks + [MakeChunk(sourceId, workspaceId, chunkIndex, currentText)];
    }
  }

  lemma TextsOfMore(group: seq<string>, groups: seq<seq<string>>)
    ensures Texts([group] + groups) == [Join(group)] + Texts(groups)
  {
    assert ([group] + groups)[1..] == groups;
  }

  /** The greedy grouping behind the chunks of a text. */
  lemma GroupsOf(text: string) returns (groups: seq<seq<string>>)
    ensures Packed(groups) && Flatten(groups) == Paragraphs(text) && Texts(groups) == ChunkTexts(text)
    ensures |groups| == |ChunkTexts(text)|
    ensures forall i :: 0 <= i < |groups| ==> ChunkTexts(text)[i] == Join(groups[i])
  {
    groups := Pack(Paragraphs(text), []);
    PackIsPacked(Paragraphs(text), []);
    assert [] + Paragraphs(text) == Paragraphs(text);
    TextsAt(groups);
  }

  lemma {:induction false} TextsAt(groups: seq<seq<string>>)
    ensures |Texts(groups)| == |groups|
    ensures forall i :: 0 <= i < |groups| ==> Texts(groups)[i] == Join(groups[i])
  {
    if groups != [] {
      TextsAt(groups[1..]);
    }
  }

  lemma {:induction false} JoinConcat(a: seq<string>, b: seq<string>)
    requires a != [] && b != []
    ensures Join(a + b) == Join(a) + "\n\n" + Join(b)
  {
    if |a| == 1 {
      assert (a + b)[1..] == b;
    } else {
      assert (a + b)[1..] == a[1..] + b;
      JoinConcat(a[1..], b);
      assert a[0] + "\n\n" + (Join(a[1..]) + "\n\n" + Join(b)) == (a[0] + "\n\n" + Join(a[1..])) + "\n\n" + Join(b);
    }
  }

  lemma {:induction false} JoinOfGroups(groups: seq<seq<string>>)
    requires Packed(groups)
    ensures Join(Texts(groups)) == Join(Flatten(groups))
  {
    hide Join;
    if groups == [] {
    } else if |groups| == 1 {
      assert groups[1..] == [] && Texts(groups) == [Join(groups[0])];
      assert Flatten(groups) == groups[0] + [] == groups[0];
      JoinOne(Join(groups[0]));
    } else {
      var rest := groups[1..];
      JoinOfGroups(rest);
      SomethingFlat(rest);
      assert Fits(groups[0]);
      JoinConcat(groups[0], Flatten(rest));
      assert Texts(groups) == [Join(groups[0])] + Texts(rest);
      TextsAt(rest);
      JoinConcat([Join(groups[0])], Texts(rest));
      JoinOne(Join(groups[0]));
    }
  }

  lemma JoinOne(t: string)
    ensures Join([t]) == t
  {
  }

  /** Chunking loses nothing: the chunks joined by blank lines are the paragraphs joined by blank
      lines, in order. */
  lemma ChunkingLosesNothing(text: string)
    ensures Join(ChunkTexts(text)) == Join(Paragraphs(text))
  {
    var groups := GroupsOf(text);
    JoinOfGroups(groups);
  }

  /** Chunking is a fixpoint: the joined chunks of a text are chunked into the same texts, and so
      get the same identifiers. */
  lemma RechunkingIsStable(text: string, sourceId: SourceId, workspaceId: string)
    ensures ChunkTexts(Join(ChunkTexts(text))) == ChunkTexts(text)
    ensures Chunks(ChunkTexts(Join(ChunkTexts(text))), sourceId, workspaceId, 0) == Chunks(ChunkTexts(text), sourceId, workspaceId, 0)
  {
    ChunkingLosesNothing(text);
    ParagraphsAreClean(text);
    ParagraphsOfJoin(Paragraphs(text));
  }

  /** The chunks of a text are the texts of the only greedy grouping of its paragraphs. */
  lemma ChunksAreTheGreedyGrouping(text: string, groups: seq<seq<string>>)
    requires Packed(groups) && Flatten(groups) == Paragraphs(text)
    ensures ChunkTexts(text) == Texts(groups)
  {
    var g := GroupsOf(text);
    PackedIsUnique(g, groups);
  }

  // ------------------------------------------------------------------
  // Bounds

  function TotalLength(texts: seq<string>): nat {
    if texts == [] then 0 else TotalLength(texts[..|texts| - 1]) + |texts[|texts| - 1]|
  }

  /** A chunk made of two or more paragraphs has at most 1001 characters. */
  lemma GroupLength(group: seq<string>)
    requires Fits(group) && |group| >= 2
    ensures |Join(group)| <= LIMIT + 1
  {
    var k := |group| - 1;
    assert group == group[..k] + [group[k]];
    JoinAppend(group[..k], group[k]);
  }

  lemma {:induction false} CountBound(texts: seq<string>)
    requires texts != []
    requires forall i :: 0 <= i < |texts| - 1 ==> |texts[i]| + |texts[i + 1]| >= LIMIT
    ensures LIMIT * (|texts| - 1) + |texts[|texts| - 1]| <= 2 * TotalLength(texts)
  {
    if |texts| > 1 {
      var rest := texts[..|texts| - 1];
      assert rest[|rest| - 1] == texts[|texts| - 2];
      CountBound(rest);
    }
  }

  lemma {:induction false} PartOfJoin(group: seq<string>)
    requires group != []
    ensures |Join(group)| >= |group[0]|
  {
  }

  /** Sizes: any chunk of two or more paragraphs has at most 1001 characters; a chunk and the
      first paragraph of the next one reach 1000; so the number of chunks is at most twice the
      total length over 1000, plus one. */
  lemma ChunkBounds(text: string) returns (groups: seq<seq<string>>)
    ensures Flatten(groups) == Paragraphs(text) && Texts(groups) == ChunkTexts(text) && |groups| == |ChunkTexts(text)|
    ensures forall i :: 0 <= i < |groups| ==> groups[i] != [] && ChunkTexts(text)[i] == Join(groups[i])
    ensures forall i :: 0 <= i < |groups| && |groups[i]| >= 2 ==> |ChunkTexts(text)[i]| <= 1001
    ensures forall i :: 0 <= i < |groups| - 1 ==> |ChunkTexts(text)[i]| + |groups[i + 1][0]| >= 1000
    ensures |ChunkTexts(text)| <= 2 * TotalLength(ChunkTexts(text)) / 1000 + 1
  {
    hide Join;
    groups := GroupsOf(text);
    var texts := ChunkTexts(text);
    forall i | 0 <= i < |groups| && |groups[i]| >= 2 ensures |texts[i]| <= 1001 {
      GroupLength(groups[i]);
    }
    forall i | 0 <= i < |groups| ensures groups[i] != [] && |texts[i]| >= |groups[i][0]| {
      assert Fits(groups[i]);
      PartOfJoin(groups[i]);
    }
    if texts != [] {
      CountBound(texts);
    }
  }

  // ------------------------------------------------------------------
  // White space, character by character

  const WHITE: set<char> := {
    '\t', '\n', '\U{B}', '\U{C}', '\r', '\U{1C}', '\U{1D}', '\U{1E}', '\U{1F}', ' ', '\U{85}', '\U{A0}', '\U{1680}',
    '\U{2000}', '\U{2001}', '\U{2002}', '\U{2003}', '\U{2004}', '\U{2005}', '\U{2006}', '\U{2007}', '\U{2008}',
    '\U{2009}', '\U{200A}', '\U{2028}', '\U{2029}', '\U{202F}', '\U{205F}', '\U{3000}'}

  lemma WhiteIsSpace(c: char)
    ensures IsSpace(c) <==> c in WHITE
  {
  }

  predicate AllWhite(s: string) {
    forall i :: 0 <= i < |s| ==> s[i] in WHITE
  }

  predicate NoWhite(s: string) {
    forall i :: 0 <= i < |s| ==> s[i] !in WHITE
  }

  lemma WhiteSpace(s: string)
    ensures AllWhite(s) <==> forall i :: 0 <= i < |s| ==> IsSpace(s[i])
    ensures NoWhite(s) <==> forall i :: 0 <= i < |s| ==> !IsSpace(s[i])
  {
    hide IsSpace;
    forall c ensures IsSpace(c) <==> c in WHITE {
      WhiteIsSpace(c);
    }
  }

  /** White space around a text without any is stripped. */
  lemma StripsWhite(w: string, p: string, v: string)
    requires AllWhite(w) && AllWhite(v) && NoWhite(p)
    ensures Strip(w + p + v) == p
  {
    WhiteSpace(w);
    WhiteSpace(v);
    WhiteSpace(p);
    hide IsSpace;
    var s := w + p + v;
    assert forall k :: 0 <= k < |w| ==> s[k] == w[k];
    assert forall k :: |w| + |p| <= k < |s| ==> s[k] == v[k - |w| - |p|];
    assert forall k :: |w| <= k < |w| + |p| ==> s[k] == p[k - |w|];
    if |p| > 0 {
      assert s[|w|] == p[0] && s[|w| + |p| - 1] == p[|p| - 1];
      assert SkipSpace(s, 0) == |w|;
      assert TrimEnd(s, |w|, |s|) == |w| + |p|;
    }
  }

  /** Two newlines in some white space. */
  predicate HasBlankLine(w: string) {
    exists i, j :: 0 <= i < j < |w| && w[i] == '\n' && w[j] == '\n'
  }

  /** A separator in two words with white space between them lies in the white space. */
  lemma BreakBetween(p: string, w: string, q: string, b: int, e: int)
    requires AllWhite(w) && NoWhite(p) && NoWhite(q) && IsBreak(p + w + q, b, e)
    ensures |p| <= b && b + 2 <= e <= |p| + |w| && w[b - |p|] == '\n' && w[e - 1 - |p|] == '\n'
  {
    WhiteSpace(p);
    WhiteSpace(q);
    hide IsSpace;
    var s := p + w + q;
    assert forall k :: 0 <= k < |p| ==> s[k] == p[k];
    assert forall k :: |p| + |w| <= k < |s| ==> s[k] == q[k - |p| - |w|];
    assert IsSpace(s[b]) && IsSpace(s[e - 1]);
  }

  lemma BreakIn(p: string, w: string, q: string, i: nat, j: nat)
    requires AllWhite(w) && i < j < |w| && w[i] == '\n' && w[j] == '\n'
    ensures IsBreak(p + w + q, |p| + i, |p| + j + 1)
  {
    WhiteSpace(w);
    hide IsSpace;
    var s := p + w + q;
    forall k | |p| + i <= k < |p| + j + 1 ensures IsSpace(s[k]) {
      assert s[k] == w[k - |p|];
    }
  }

  lemma OnePiece(s: string)
    requires forall b, e :: !IsBreak(s, b, e)
    ensures Split(s) == [s]
  {
    hide IsBreak;
  }

  /** Behind the longest separator there is no other one. */
  lemma NoMoreBreaks(p: string, w: string, q: string, b: nat, e: nat, b': int, e': int)
    requires AllWhite(w) && NoWhite(p) && NoWhite(q) && |p| <= b < e <= |p| + |w| && w[b - |p|] == '\n'
    requires forall x :: IsBreak(p + w + q, b, x) ==> x <= e
    ensures !IsBreak(w[e - |p|..] + q, b', e')
  {
    hide IsBreak, IsSpace;
    var v := w[e - |p|..];
    if IsBreak(v + q, b', e') {
      assert "" + v + q == v + q;
      BreakBetween("", v, q, b', e');
      var j := e - |p| + e' - 1;
      assert v[e' - 1] == w[j];
      BreakIn(p, w, q, b - |p|, j);
    }
  }

  lemma TwoWords(p: string, u: string, v: string, q: string)
    requires AllWhite(u) && AllWhite(v) && NoWhite(p) && NoWhite(q) && |p| > 0 && |q| > 0
    ensures Stripped([p + u, v + q]) == [p, q]
  {
    hide Strip;
    assert "" + p + u == p + u && v + q + "" == v + q;
    StripsWhite("", p, u);
    StripsWhite(v, q, "");
    assert [p + u, v + q][1..] == [v + q] && [v + q][1..] == [];
    assert Stripped([v + q]) == [q] + Stripped([]);
  }

  /** Two words with white space between them are two paragraphs if it has a blank line, and one if not. */
  lemma BlankLineSeparates(p: string, w: string, q: string)
    requires AllWhite(w) && NoWhite(p) && NoWhite(q) && |p| > 0 && |q| > 0
    ensures Paragraphs(p + w + q) == if HasBlankLine(w) then [p, q] else [p + w + q]
  {
    hide IsSpace, IsBreak, Strip;
    var s := p + w + q;
    if HasBlankLine(w) {
      var i, j :| 0 <= i < j < |w| && w[i] == '\n' && w[j] == '\n';
      BreakIn(p, w, q, i, j);
      var found := FirstBreak(s, 0);
      var b, e := found.value.0, found.value.1;
      BreakBetween(p, w, q, b, e);
      var rest := w[e - |p|..] + q;
      forall b', e' ensures !IsBreak(rest, b', e') {
        NoMoreBreaks(p, w, q, b, e, b', e');
      }
      OnePiece(rest);
      TwoWords(p, w[..b - |p|], w[e - |p|..], q);
      assert s[..b] == p + w[..b - |p|] && s[e..] == rest;
      assert Split(s) == [s[..b]] + Split(s[e..]);
      assert Split(s) == [p + w[..b - |p|], rest];
    } else {
      forall b, e ensures !IsBreak(s, b, e) {
        if IsBreak(s, b, e) {
          BreakBetween(p, w, q, b, e);
        }
      }
      OnePiece(s);
      WordsStripped(p, w, q);
      assert [s][1..] == [];
      assert Stripped([s]) == [s] + Stripped([]);
    }
  }

  lemma WordsStripped(p: string, w: string, q: string)
    requires NoWhite(p) && NoWhite(q) && |p| > 0 && |q| > 0
    ensures Strip(p + w + q) == p + w + q
  {
    WhiteSpace(p);
    WhiteSpace(q);
    hide IsSpace, Strip;
    var s := p + w + q;
    assert s[0] == p[0] && s[|s| - 1] == q[|q| - 1];
    StripClean(s);
  }

  /** A text of white space has no chunks. */
  lemma WhiteHasNoChunks(w: string)
    requires AllWhite(w)
    ensures ParsedTexts(w) == []
  {
    WhiteSpace(w);
    hide IsSpace, ParsedTexts;
    VisibleHasChunks(w);
  }

  // ------------------------------------------------------------------
  // Parsing a text goes through a file, which is read back with universal newlines

  function ReadBack(s: string): string {
    if s == "" then ""
    else if s[0] == '\r' then "\n" + ReadBack(if |s| > 1 && s[1] == '\n' then s[2..] else s[1..])
    else [s[0]] + ReadBack(s[1..])
  }

  /** The chunk texts of a parsed text. */
  function ParsedTexts(text: string): seq<string> {
    ChunkTexts(ReadBack(text))
  }

  lemma {:induction false} FrontKept(a: string, rest: string)
    requires NoReturns(a)
    ensures ReadBack(a + rest) == a + ReadBack(rest)
  {
    if a == "" {
      assert a + rest == rest;
    } else {
      assert (a + rest)[1..] == a[1..] + rest;
      FrontKept(a[1..], rest);
    }
  }

  /** Line ends of all three kinds are read back as one newline. */
  lemma LineEnds(a: string, b: string)
    requires NoReturns(a)
    ensures ReadBack(a + ("\n" + b)) == a + ("\n" + ReadBack(b))
    ensures ReadBack(a + ("\r\n" + b)) == a + ("\n" + ReadBack(b))
    ensures !("\n" <= b) ==> ReadBack(a + ("\r" + b)) == a + ("\n" + ReadBack(b))
  {
    FrontKept(a, "\n" + b);
    FrontKept(a, "\r\n" + b);
    FrontKept(a, "\r" + b);
    assert ("\n" + b)[1..] == b && ("\r" + b)[1..] == b && ("\r\n" + b)[2..] == b;
  }

  predicate NoReturns(s: string) {
    forall i :: 0 <= i < |s| ==> s[i] != '\r'
  }

  ghost predicate NoneReturn(ps: seq<string>) {
    forall i :: 0 <= i < |ps| ==> NoReturns(ps[i])
  }

  lemma {:induction false} ReadBackHasNoReturns(s: string)
    ensures NoReturns(ReadBack(s))
  {
    if s != "" {
      ReadBackHasNoReturns(if s[0] == '\r' && |s| > 1 && s[1] == '\n' then s[2..] else s[1..]);
    }
  }

  lemma {:induction false} ReadBackKeeps(s: string)
    requires NoReturns(s)
    ensures ReadBack(s) == s
  {
    if s != "" {
      ReadBackKeeps(s[1..]);
    }
  }

  lemma {:induction false} SplitKeepsNoReturns(s: string)
    requires NoReturns(s)
    ensures NoneReturn(Split(s))
    decreases |s|
  {
    match FirstBreak(s, 0)
    case None =>
    case Some((b, e)) => SplitKeepsNoReturns(s[e..]);
  }

  lemma {:induction false} StrippedKeepsNoReturns(pieces: seq<string>)
    requires NoneReturn(pieces)
    ensures NoneReturn(Stripped(pieces))
  {
    if pieces != [] {
      StrippedKeepsNoReturns(pieces[1..]);
      assert NoReturns(Strip(pieces[0])) by { assert NoReturns(pieces[0]); }
    }
  }

  lemma {:induction false} JoinKeepsNoReturns(ps: seq<string>)
    requires NoneReturn(ps)
    ensures NoReturns(Join(ps))
  {
    if |ps| > 1 {
      JoinKeepsNoReturns(ps[1..]);
      assert NoReturns(ps[0]);
    }
  }

  /** Parsing the joined chunks of a parsed text gives the same chunks, and identifiers, again. */
  lemma ReparsingIsStable(text: string)
    ensures ParsedTexts(Join(ParsedTexts(text))) == ParsedTexts(text)
  {
    var t := ReadBack(text);
    ReadBackHasNoReturns(text);
    SplitKeepsNoReturns(t);
    StrippedKeepsNoReturns(Split(t));
    ChunkingLosesNothing(t);
    JoinKeepsNoReturns(Paragraphs(t));
    ReadBackKeeps(Join(ChunkTexts(t)));
    RechunkingIsStable(t, 0, "");
  }

  lemma {:induction false} NoParagraphsIsBlank(s: string)
    requires Paragraphs(s) == []
    ensures forall k :: 0 <= k < |s| ==> IsSpace(s[k])
    decreases |s|
  {
    var pieces := Split(s);
    assert Strip(pieces[0]) == "" && Stripped(pieces[1..]) == [];
    match FirstBreak(s, 0)
    case None =>
      assert pieces[0] == s;
    case Some((b, e)) =>
      assert pieces[0] == s[..b] && pieces[1..] == Split(s[e..]);
      NoParagraphsIsBlank(s[e..]);
      forall k | 0 <= k < |s| ensures IsSpace(s[k]) {
        if k < b { assert s[..b][k] == s[k]; }
        if k >= e { assert s[e..][k - e] == s[k]; }
      }
  }

  lemma {:induction false} ReadBackShows(s: string)
    requires forall k :: 0 <= k < |ReadBack(s)| ==> IsSpace(ReadBack(s)[k])
    ensures forall k :: 0 <= k < |s| ==> IsSpace(s[k])
  {
    if s != "" {
      var rest := if s[0] == '\r' && |s| > 1 && s[1] == '\n' then s[2..] else s[1..];
      assert forall k :: 0 <= k < |ReadBack(rest)| ==> ReadBack(rest)[k] == ReadBack(s)[k + 1];
      ReadBackShows(rest);
      assert ReadBack(s)[0] == (if s[0] == '\r' then '\n' else s[0]);
      forall k | 0 <= k < |s| ensures IsSpace(s[k]) {
        if k >= |s| - |rest| { assert s[k] == rest[k - (|s| - |rest|)]; }
      }
    }
  }

  /** A text has chunks if and only if something in it is visible. */
  lemma VisibleHasChunks(text: string)
    ensures ParsedTexts(text) != [] <==> |Strip(text)| > 0
  {
    hide Strip, Split, FirstBreak;
    if ParsedTexts(text) == [] {
      var groups := GroupsOf(ReadBack(text));
      assert Paragraphs(ReadBack(text)) == [];
      NoParagraphsIsBlank(ReadBack(text));
      ReadBackShows(text);
      assert Strip(text) == "";
    } else if |Strip(text)| == 0 {
      assert Strip(text) == "";
      ReadBackBlank(text);
      BlankHasNoParagraphs(ReadBack(text));
    }
  }

  lemma {:induction false} ReadBackBlank(text: string)
    requires forall k :: 0 <= k < |text| ==> IsSpace(text[k])
    ensures forall k :: 0 <= k < |ReadBack(text)| ==> IsSpace(ReadBack(text)[k])
  {
    if text != "" {
      ReadBackBlank(if text[0] == '\r' && |text| > 1 && text[1] == '\n' then text[2..] else text[1..]);
    }
  }

  /** What `parse_text` returns. */
  method ParseText(text: string, sourceId: SourceId, workspaceId: string) returns (chunks: seq<Chunk>)
    ensures chunks == Chunks(ParsedTexts(text), sourceId, workspaceId, 0)
  {
    chunks := ChunkText(ReadBack(text), sourceId, workspaceId);
  }
}
