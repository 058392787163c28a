/** lib/chunking.ts: the two chunkers that cut a normalised document into
    retrieval-sized pieces. */
module Chunking {
  import opened Wrappers
  import opened JsString
  import opened Types

  const DefaultChunkSize := 1000
  const DefaultChunkOverlap := 200
  const DefaultSeparator := "\n\n"

  /** Absent options take their defaults. */
  function ResolveOptions(input: ChunkOptionsInput): ChunkOptions {
    ChunkOptions(input.chunkSize.GetOr(DefaultChunkSize),
                 input.chunkOverlap.GetOr(DefaultChunkOverlap),
                 input.separator.GetOr(DefaultSeparator))
  }

  // =====================================================================
  // chunkText: single-separator accumulator
  // =====================================================================

  /** `s.trim().length === 0`. */
  predicate Blank(s: string) {
    Trim(s) == []
  }

  lemma BlankConcat(a: string, b: string)
    ensures Blank(a + b) <==> Blank(a) && Blank(b)
  {
    AllWhitespaceConcat(a, b);
    TrimEmpty(a);
    TrimEmpty(b);
    TrimEmpty(a + b);
  }

  lemma NotBlankNonEmpty(s: string)
    requires !Blank(s)
    ensures s != []
  {
    TrimEmpty(s);
  }

  /** `parts.filter(s => s.trim().length > 0)`. */
  function NonBlank(parts: seq<string>): (r: seq<string>)
    ensures forall k :: 0 <= k < |r| ==> !Blank(r[k])
    ensures r == [] <==> forall k :: 0 <= k < |parts| ==> Blank(parts[k])
    ensures (forall k :: 0 <= k < |parts| ==> !Blank(parts[k])) ==> r == parts
    decreases |parts|
  {
    if parts == [] then []
    else
      var rest := NonBlank(parts[1..]);
      assert forall k :: 0 <= k < |parts| - 1 ==> parts[1..][k] == parts[k + 1];
      if !Blank(parts[0]) then
        assert [parts[0]] + parts[1..] == parts;
        [parts[0]] + rest
      else
        rest
  }

  /** The sections `chunkText` accumulates: the separator-delimited pieces
      of the text whose trim is not empty. */
  function Sections(text: string, separator: string): seq<string> {
    NonBlank(SplitAny(text, separator))
  }

  /** The variables of the section loop. `closed` additionally records the
      untrimmed text of every chunk pushed so far, and `closers` the section
      whose arrival closed each of them. */
  datatype Accumulator = Accumulator(
    chunks: seq<TextChunk>,
    closed: seq<string>,
    closers: seq<string>,
    current: string,
    currentStart: int,
    chunkIndex: int,
    position: int)

  const Initial := Accumulator([], [], [], "", 0, 0, 0)

  /** `text.slice(-chunkOverlap)`, the tail carried into the next chunk. For
      `chunkOverlap == 0` this is the whole text. */
  function Overlap(o: ChunkOptions, text: string): string {
    SliceFrom(text, -o.chunkOverlap)
  }

  /** What a new running chunk starts with after a close: the overlap, and
      the separator unless the overlap is empty. */
  function Seed(o: ChunkOptions, text: string): string {
    var overlapText := Overlap(o, text);
    overlapText + (if overlapText != [] then o.separator else [])
  }

  /** One iteration of the section loop. */
  function Step(o: ChunkOptions, acc: Accumulator, section: string): Accumulator {
    var position := acc.position + |section| + |o.separator|;
    if |acc.current| > 0 && |acc.current| + |section| > o.chunkSize then
      var overlapText := Overlap(o, acc.current);
      Accumulator(
        acc.chunks + [TextChunk(Trim(acc.current), acc.chunkIndex, acc.currentStart, acc.position)],
        acc.closed + [acc.current],
        acc.closers + [section],
        Seed(o, acc.current) + section,
        acc.position - |overlapText|,
        acc.chunkIndex + 1,
        position)
    else if |acc.current| > 0 then
      acc.(current := acc.current + o.separator + section, position := position)
    else
      acc.(current := section, currentStart := acc.position, position := position)
  }

  /** The loop over `sections[k..]`. */
  function Fold(o: ChunkOptions, sections: seq<string>, k: nat, acc: Accumulator): Accumulator
    requires k <= |sections|
    decreases |sections| - k
  {
    if k == |sections| then acc else Fold(o, sections, k + 1, Step(o, acc, sections[k]))
  }

  /** The push of the last running chunk after the loop. */
  function Finish(acc: Accumulator): seq<TextChunk> {
    if Trim(acc.current) != [] then
      acc.chunks + [TextChunk(Trim(acc.current), acc.chunkIndex, acc.currentStart, acc.position)]
    else
      acc.chunks
  }

  /** The untrimmed text of every chunk `Finish` emits. */
  function FinishRaw(acc: Accumulator): seq<string> {
    if Trim(acc.current) != [] then acc.closed + [acc.current] else acc.closed
  }

  function Run(o: ChunkOptions, text: string): Accumulator {
    Fold(o, Sections(text, o.separator), 0, Initial)
  }

  /** The chunk list of a run, well formed: indices `0..N-1`, non-empty
      spans with strictly increasing ends, and trimmed non-empty texts that
      are the trims of the untrimmed ones. */
  ghost predicate WellFormed(chunks: seq<TextChunk>, raw: seq<string>) {
    Numbered(chunks) && TrimsOf(chunks, raw)
  }

  ghost predicate Numbered(chunks: seq<TextChunk>) {
    && (forall i :: 0 <= i < |chunks| ==> chunks[i].index == i)
    && (forall i :: 0 <= i < |chunks| ==> 0 <= chunks[i].startChar < chunks[i].endChar)
    && (forall i :: 0 < i < |chunks| ==> chunks[i - 1].endChar < chunks[i].endChar)
  }

  ghost predicate TrimsOf(chunks: seq<TextChunk>, raw: seq<string>) {
    && |chunks| == |raw|
    && (forall i :: 0 <= i < |chunks| ==> chunks[i].text == Trim(raw[i]) && chunks[i].text != [])
  }

  lemma NumberedSnoc(chunks: seq<TextChunk>, c: TextChunk)
    requires Numbered(chunks)
    requires c.index == |chunks| && 0 <= c.startChar < c.endChar
    requires chunks != [] ==> chunks[|chunks| - 1].endChar < c.endChar
    ensures Numbered(chunks + [c])
  {
    var cs := chunks + [c];
    forall i | 0 <= i < |chunks| ensures cs[i] == chunks[i] {
    }
  }

  lemma TrimsOfSnoc(chunks: seq<TextChunk>, raw: seq<string>, c: TextChunk, r: string)
    requires TrimsOf(chunks, raw)
    requires c.text == Trim(r) && c.text != []
    ensures TrimsOf(chunks + [c], raw + [r])
  {
    var cs, rs := chunks + [c], raw + [r];
    forall i | 0 <= i < |chunks| ensures cs[i] == chunks[i] && rs[i] == raw[i] {
    }
  }

  lemma WellFormedSnoc(chunks: seq<TextChunk>, raw: seq<string>, c: TextChunk, r: string)
    requires WellFormed(chunks, raw)
    requires c.index == |chunks| && c.text == Trim(r) && c.text != []
    requires 0 <= c.startChar < c.endChar
    requires chunks != [] ==> chunks[|chunks| - 1].endChar < c.endChar
    ensures WellFormed(chunks + [c], raw + [r])
  {
    NumberedSnoc(chunks, c);
    TrimsOfSnoc(chunks, raw, c, r);
  }

  /** What holds of the loop variables between iterations. */
  ghost predicate Inv(acc: Accumulator) {
    && WellFormed(acc.chunks, acc.closed)
    && acc.chunkIndex == |acc.chunks|
    && (acc.chunks != [] ==> acc.chunks[|acc.chunks| - 1].endChar < acc.position)
    && (acc.position == 0 ==> acc == Initial)
    && (acc.position != 0 ==> && acc.current != [] && !Blank(acc.current)
                              && 0 <= acc.currentStart && acc.currentStart + |acc.current| <= acc.position)
  }

  lemma StepInv(o: ChunkOptions, acc: Accumulator, section: string)
    requires Inv(acc) && !Blank(section)
    ensures Inv(Step(o, acc, section))
  {
    assert section != [] by { TrimEmpty(section); }
    if |acc.current| > 0 && |acc.current| + |section| > o.chunkSize {
      CloseInv(o, acc, section);
    } else if |acc.current| > 0 {
      BlankConcat(acc.current + o.separator, section);
    }
  }

  lemma CloseInv(o: ChunkOptions, acc: Accumulator, section: string)
    requires Inv(acc) && !Blank(section) && section != [] && acc.current != []
    ensures Inv(Accumulator(
        acc.chunks + [TextChunk(Trim(acc.current), acc.chunkIndex, acc.currentStart, acc.position)],
        acc.closed + [acc.current],
        acc.closers + [section],
        Seed(o, acc.current) + section,
        acc.position - |Overlap(o, acc.current)|,
        acc.chunkIndex + 1,
        acc.position + |section| + |o.separator|))
  {
    var c := TextChunk(Trim(acc.current), acc.chunkIndex, acc.currentStart, acc.position);
    WellFormedSnoc(acc.chunks, acc.closed, c, acc.current);
    BlankConcat(Seed(o, acc.current), section);
  }

  lemma {:induction false} FoldInv(o: ChunkOptions, sections: seq<string>, k: nat, acc: Accumulator)
    requires k <= |sections| && Inv(acc)
    requires forall j :: 0 <= j < |sections| ==> !Blank(sections[j])
    ensures Inv(Fold(o, sections, k, acc))
    decreases |sections| - k
  {
    if k < |sections| {
      StepInv(o, acc, sections[k]);
      FoldInv(o, sections, k + 1, Step(o, acc, sections[k]));
    }
  }

  lemma FinishWellFormed(acc: Accumulator)
    requires Inv(acc)
    ensures WellFormed(Finish(acc), FinishRaw(acc))
  {
    if Trim(acc.current) != [] {
      var c := TextChunk(Trim(acc.current), acc.chunkIndex, acc.currentStart, acc.position);
      WellFormedSnoc(acc.chunks, acc.closed, c, acc.current);
    }
  }

  /** The loop never moves `position` back. */
  lemma {:induction false} FoldPositionGrows(o: ChunkOptions, sections: seq<string>, k: nat, acc: Accumulator)
    requires k <= |sections|
    ensures Fold(o, sections, k, acc).position >= acc.position
    ensures k < |sections| && sections[k] != [] ==> Fold(o, sections, k, acc).position > acc.position
    decreases |sections| - k
  {
    if k < |sections| {
      FoldPositionGrows(o, sections, k + 1, Step(o, acc, sections[k]));
    }
  }

  /** A run emits no chunk exactly when the text has no non-blank section. */
  lemma RunEmpty(o: ChunkOptions, text: string)
    ensures Finish(Run(o, text)) == [] <==> |Sections(text, o.separator)| == 0
  {
    var sections := Sections(text, o.separator);
    var acc := Run(o, text);
    FoldInv(o, sections, 0, Initial);
    if |sections| == 0 {
      assert acc == Initial;
      assert Trim([]) == [] by { TrimEmpty([]); }
    } else {
      assert sections[0] != [] by { TrimEmpty(sections[0]); }
      FoldPositionGrows(o, sections, 0, Initial);
      assert acc.position != 0;
      assert Trim(acc.current) != [];
    }
  }

  /** What the loop has consumed after `k` sections: those sections joined
      by the separator. */
  function Consumed(o: ChunkOptions, sections: seq<string>, k: nat): string
    requires k <= |sections|
  {
    Join(sections[..k], o.separator)
  }

  /** Every untrimmed chunk text is the piece of `consumed` that ends one
      separator before the chunk's `endChar`. */
  ghost predicate SpansIn(o: ChunkOptions, consumed: string, chunks: seq<TextChunk>, raw: seq<string>) {
    && |raw| == |chunks|
    && (forall i :: 0 <= i < |chunks| ==>
          OccursAt(consumed, raw[i], chunks[i].endChar - |o.separator| - |raw[i]|))
  }

  /** Where the pieces of a run come from once it has consumed `consumed`:
      the closed chunks are spans of it, the running chunk is a suffix of
      it, and `position` runs one separator past it. */
  ghost predicate TracedIn(o: ChunkOptions, consumed: string, acc: Accumulator) {
    && SpansIn(o, consumed, acc.chunks, acc.closed)
    && acc.position == |consumed| + |o.separator|
    && EndsWith(consumed, acc.current)
  }

  ghost predicate Traced(o: ChunkOptions, sections: seq<string>, k: nat, acc: Accumulator)
    requires k <= |sections|
  {
    && (k == 0 ==> acc.position == 0 && acc.current == [] && acc.chunks == [] && acc.closed == [])
    && (k > 0 ==> TracedIn(o, Consumed(o, sections, k), acc))
  }

  /** Consuming one more section appends the separator and the section. */
  lemma ConsumedSnoc(o: ChunkOptions, sections: seq<string>, k: nat)
    requires 0 < k < |sections|
    ensures Consumed(o, sections, k + 1) == Consumed(o, sections, k) + (o.separator + sections[k])
  {
    assert sections[..k + 1] == sections[..k] + [sections[k]];
    JoinSnoc(sections[..k], sections[k], o.separator);
  }

  /** Spans keep their place when more text is consumed. */
  lemma SpansGrow(o: ChunkOptions, consumed: string, tail: string, chunks: seq<TextChunk>, raw: seq<string>)
    requires SpansIn(o, consumed, chunks, raw)
    ensures SpansIn(o, consumed + tail, chunks, raw)
  {
    forall i | 0 <= i < |chunks|
      ensures OccursAt(consumed + tail, raw[i], chunks[i].endChar - |o.separator| - |raw[i]|)
    {
      OccursAtPrefix(consumed, tail, raw[i], chunks[i].endChar - |o.separator| - |raw[i]|);
    }
  }

  lemma SpansSnoc(o: ChunkOptions, consumed: string, chunks: seq<TextChunk>, raw: seq<string>, c: TextChunk, r: string)
    requires SpansIn(o, consumed, chunks, raw)
    requires OccursAt(consumed, r, c.endChar - |o.separator| - |r|)
    ensures SpansIn(o, consumed, chunks + [c], raw + [r])
  {
    var chunks', raw' := chunks + [c], raw + [r];
    forall i | 0 <= i < |chunks'|
      ensures OccursAt(consumed, raw'[i], chunks'[i].endChar - |o.separator| - |raw'[i]|)
    {
      if i < |chunks| {
        assert chunks'[i] == chunks[i] && raw'[i] == raw[i];
      }
    }
  }

  lemma StepTraced(o: ChunkOptions, sections: seq<string>, k: nat, acc: Accumulator)
    requires k < |sections| && Traced(o, sections, k, acc)
    ensures Traced(o, sections, k + 1, Step(o, acc, sections[k]))
  {
    if k == 0 {
      StepTracedFirst(o, sections, acc);
    } else {
      ConsumedSnoc(o, sections, k);
      StepTracedLater(o, Consumed(o, sections, k), acc, sections[k]);
    }
  }

  lemma StepTracedFirst(o: ChunkOptions, sections: seq<string>, acc: Accumulator)
    requires 0 < |sections| && Traced(o, sections, 0, acc)
    ensures Traced(o, sections, 1, Step(o, acc, sections[0]))
  {
    assert sections[..1] == [sections[0]];
  }

  lemma StepTracedLater(o: ChunkOptions, consumed: string, acc: Accumulator, section: string)
    requires TracedIn(o, consumed, acc)
    ensures TracedIn(o, consumed + (o.separator + section), Step(o, acc, section))
  {
    if |acc.current| > 0 && |acc.current| + |section| > o.chunkSize {
      CloseTraced(o, consumed, acc, section, TextChunk(Trim(acc.current), acc.chunkIndex, acc.currentStart, acc.position));
    } else if |acc.current| > 0 {
      AppendTraced(o, consumed, acc, section);
    } else {
      StartTraced(o, consumed, acc, section);
    }
  }

  lemma CloseTraced(o: ChunkOptions, consumed: string, acc: Accumulator, section: string, c: TextChunk)
    requires TracedIn(o, consumed, acc) && c.endChar == acc.position
    ensures TracedIn(o, consumed + (o.separator + section), Accumulator(
        acc.chunks + [c],
        acc.closed + [acc.current],
        acc.closers + [section],
        Seed(o, acc.current) + section,
        acc.position - |Overlap(o, acc.current)|,
        acc.chunkIndex + 1,
        acc.position + |section| + |o.separator|))
  {
    var tail := o.separator + section;
    SpansGrow(o, consumed, tail, acc.chunks, acc.closed);
    EndsWithOccurs(consumed, acc.current);
    OccursAtPrefix(consumed, tail, acc.current, |consumed| - |acc.current|);
    SpansSnoc(o, consumed + tail, acc.chunks, acc.closed, c, acc.current);
    SeedEndsConsumed(o, consumed, tail, acc.current, section);
  }

  /** The next running chunk, overlap and section, ends what has been
      consumed. */
  lemma SeedEndsConsumed(o: ChunkOptions, consumed: string, tail: string, current: string, section: string)
    requires tail == o.separator + section
    requires EndsWith(consumed, current)
    ensures EndsWith(consumed + tail, Seed(o, current) + section)
  {
    var overlapText := Overlap(o, current);
    SliceFromIsSuffix(current, -o.chunkOverlap);
    EndsWithTrans(consumed, current, overlapText);
    if overlapText != [] {
      EndsWithAppend(consumed, overlapText, tail);
      assert overlapText + tail == Seed(o, current) + section;
    } else {
      assert (consumed + tail)[|consumed + tail| - |section|..] == section;
    }
  }

  lemma AppendTraced(o: ChunkOptions, consumed: string, acc: Accumulator, section: string)
    requires TracedIn(o, consumed, acc)
    ensures TracedIn(o, consumed + (o.separator + section),
                     acc.(current := acc.current + o.separator + section,
                          position := acc.position + |section| + |o.separator|))
  {
    var tail := o.separator + section;
    SpansGrow(o, consumed, tail, acc.chunks, acc.closed);
    EndsWithAppend(consumed, acc.current, tail);
    assert acc.current + o.separator + section == acc.current + tail;
  }

  lemma StartTraced(o: ChunkOptions, consumed: string, acc: Accumulator, section: string)
    requires TracedIn(o, consumed, acc)
    ensures TracedIn(o, consumed + (o.separator + section),
                     acc.(current := section, currentStart := acc.position,
                          position := acc.position + |section| + |o.separator|))
  {
    var tail := o.separator + section;
    SpansGrow(o, consumed, tail, acc.chunks, acc.closed);
    assert (consumed + tail)[|consumed + tail| - |section|..] == section;
  }

  lemma {:induction false} FoldTraced(o: ChunkOptions, sections: seq<string>, k: nat, acc: Accumulator)
    requires k <= |sections| && Traced(o, sections, k, acc)
    ensures Traced(o, sections, |sections|, Fold(o, sections, k, acc))
    decreases |sections| - k
  {
    if k < |sections| {
      StepTraced(o, sections, k, acc);
      FoldTraced(o, sections, k + 1, Step(o, acc, sections[k]));
    }
  }

  /** Each chunk after the first starts with the carried-over tail of the
      one before it: its untrimmed text begins with that chunk's `Seed`,
      and its `startChar` is the previous `endChar` less the tail's
      length. The first chunk starts at 0. */
  ghost predicate Chained(o: ChunkOptions, chunks: seq<TextChunk>, raw: seq<string>) {
    && |raw| == |chunks|
    && (chunks != [] ==> chunks[0].startChar == 0)
    && (forall i :: 0 < i < |chunks| ==> StartsWith(raw[i], Seed(o, raw[i - 1])))
    && (forall i :: 0 < i < |chunks| ==>
          chunks[i].startChar == chunks[i - 1].endChar - |Overlap(o, raw[i - 1])|)
  }

  /** The running chunk is chained to the closed ones as the next chunk
      will be. */
  ghost predicate ChainedAcc(o: ChunkOptions, acc: Accumulator) {
    && Chained(o, acc.chunks, acc.closed)
    && (acc.current == [] ==> acc.position == 0 && acc.chunks == [])
    && (acc.chunks == [] ==> acc.currentStart == 0)
    && (acc.chunks != [] ==>
          var last := |acc.chunks| - 1;
          && StartsWith(acc.current, Seed(o, acc.closed[last]))
          && acc.currentStart == acc.chunks[last].endChar - |Overlap(o, acc.closed[last])|)
  }

  lemma ChainedSnoc(o: ChunkOptions, chunks: seq<TextChunk>, raw: seq<string>, c: TextChunk, r: string)
    requires Chained(o, chunks, raw)
    requires chunks == [] ==> c.startChar == 0
    requires chunks != [] ==> StartsWith(r, Seed(o, raw[|raw| - 1]))
    requires chunks != [] ==> c.startChar == chunks[|chunks| - 1].endChar - |Overlap(o, raw[|raw| - 1])|
    ensures Chained(o, chunks + [c], raw + [r])
  {
    var chunks', raw' := chunks + [c], raw + [r];
    forall i | 0 <= i < |chunks|
      ensures chunks'[i] == chunks[i] && raw'[i] == raw[i]
    {
    }
  }

  lemma StepChained(o: ChunkOptions, acc: Accumulator, section: string)
    requires ChainedAcc(o, acc) && section != []
    ensures ChainedAcc(o, Step(o, acc, section))
  {
    if |acc.current| > 0 && |acc.current| + |section| > o.chunkSize {
      CloseChained(o, acc, section, TextChunk(Trim(acc.current), acc.chunkIndex, acc.currentStart, acc.position));
    } else if |acc.current| > 0 {
      AppendChained(o, acc, section);
    }
  }

  lemma CloseChained(o: ChunkOptions, acc: Accumulator, section: string, c: TextChunk)
    requires ChainedAcc(o, acc) && section != []
    requires c.startChar == acc.currentStart && c.endChar == acc.position
    ensures ChainedAcc(o, Accumulator(
        acc.chunks + [c],
        acc.closed + [acc.current],
        acc.closers + [section],
        Seed(o, acc.current) + section,
        acc.position - |Overlap(o, acc.current)|,
        acc.chunkIndex + 1,
        acc.position + |section| + |o.separator|))
  {
    ChainedSnoc(o, acc.chunks, acc.closed, c, acc.current);
    assert (Seed(o, acc.current) + section)[..|Seed(o, acc.current)|] == Seed(o, acc.current);
  }

  lemma AppendChained(o: ChunkOptions, acc: Accumulator, section: string)
    requires ChainedAcc(o, acc) && acc.current != []
    ensures ChainedAcc(o, acc.(current := acc.current + o.separator + section,
                              position := acc.position + |section| + |o.separator|))
  {
    if acc.chunks != [] {
      var last := |acc.chunks| - 1;
      StartsWithAppend(acc.current, Seed(o, acc.closed[last]), o.separator + section);
      assert acc.current + o.separator + section == acc.current + (o.separator + section);
    }
  }

  lemma {:induction false} FoldChained(o: ChunkOptions, sections: seq<string>, k: nat, acc: Accumulator)
    requires k <= |sections| && ChainedAcc(o, acc)
    requires forall j :: k <= j < |sections| ==> sections[j] != []
    ensures ChainedAcc(o, Fold(o, sections, k, acc))
    decreases |sections| - k
  {
    if k < |sections| {
      StepChained(o, acc, sections[k]);
      FoldChained(o, sections, k + 1, Step(o, acc, sections[k]));
    }
  }

  lemma FinishTraced(o: ChunkOptions, consumed: string, acc: Accumulator)
    requires TracedIn(o, consumed, acc)
    ensures SpansIn(o, consumed, Finish(acc), FinishRaw(acc))
    ensures Trim(acc.current) != [] ==> Finish(acc)[|Finish(acc)| - 1].endChar == |consumed| + |o.separator|
  {
    if Trim(acc.current) != [] {
      var c := TextChunk(Trim(acc.current), acc.chunkIndex, acc.currentStart, acc.position);
      EndsWithOccurs(consumed, acc.current);
      SpansSnoc(o, consumed, acc.chunks, acc.closed, c, acc.current);
    }
  }

  lemma FinishChained(o: ChunkOptions, acc: Accumulator)
    requires ChainedAcc(o, acc)
    ensures Chained(o, Finish(acc), FinishRaw(acc))
  {
    if Trim(acc.current) != [] {
      var c := TextChunk(Trim(acc.current), acc.chunkIndex, acc.currentStart, acc.position);
      ChainedSnoc(o, acc.chunks, acc.closed, c, acc.current);
    }
  }

  /** lib/chunking.ts `chunkText`. */
  function ChunkText(text: string, input: ChunkOptionsInput): (r: Result<seq<TextChunk>, string>)
    ensures var o := ResolveOptions(input);
            r.Failure? <==> o.chunkSize <= o.chunkOverlap
    ensures r.Success? ==> WellFormed(r.value, FinishRaw(Run(ResolveOptions(input), text)))
    ensures r.Success? ==> (r.value == [] <==> |Sections(text, ResolveOptions(input).separator)| == 0)
    ensures var o := ResolveOptions(input);
            r.Success? && r.value != [] ==>
              BudgetKept(o, Sections(text, o.separator), FinishRaw(Run(o, text)), Run(o, text).closers)
  {
    var o := ResolveOptions(input);
    if o.chunkSize <= o.chunkOverlap then
      Failure("chunkSize must be greater than chunkOverlap")
    else
      FoldInv(o, Sections(text, o.separator), 0, Initial);
      FinishWellFormed(Run(o, text));
      RunEmpty(o, text);
      RunBudget(o, text);
      Success(Finish(Run(o, text)))
  }

  /** The chunks are the non-blank sections put back together: with the
      sections joined by the separator, each chunk's untrimmed text is the
      piece that ends one separator before its `endChar`, and the last
      chunk ends one separator past the end. */
  lemma ChunkTextSpans(text: string, input: ChunkOptionsInput)
    ensures var o := ResolveOptions(input);
            var r := ChunkText(text, input);
            var joined := Join(Sections(text, o.separator), o.separator);
            r.Success? ==>
              && SpansIn(o, joined, r.value, FinishRaw(Run(o, text)))
              && (r.value != [] ==> r.value[|r.value| - 1].endChar == |joined| + |o.separator|)
  {
    var o := ResolveOptions(input);
    var sections := Sections(text, o.separator);
    if ChunkText(text, input).Success? && sections != [] {
      FoldTraced(o, sections, 0, Initial);
      FoldInv(o, sections, 0, Initial);
      RunEmpty(o, text);
      assert sections[..|sections|] == sections;
      FinishTraced(o, Join(sections, o.separator), Run(o, text));
    }
  }

  /** Consecutive chunks overlap: each chunk after the first begins with
      the tail `text.slice(-chunkOverlap)` of the one before it (plus the
      separator when that tail is not empty), and starts that many
      characters before the previous chunk ends. */
  lemma ChunkTextOverlap(text: string, input: ChunkOptionsInput)
    ensures var o := ResolveOptions(input);
            var r := ChunkText(text, input);
            r.Success? ==> Chained(o, r.value, FinishRaw(Run(o, text)))
  {
    var o := ResolveOptions(input);
    var sections := Sections(text, o.separator);
    forall j | 0 <= j < |sections| ensures sections[j] != [] {
      NotBlankNonEmpty(sections[j]);
    }
    FoldChained(o, sections, 0, Initial);
    FinishChained(o, Run(o, text));
  }

  // ---------------------------------------------------------------------
  // The size budget
  // ---------------------------------------------------------------------

  /** What chunk `i` opened with: the first section, or the seed of the
      chunk before it followed by the section that closed that chunk. */
  function Opening(o: ChunkOptions, first: string, raw: seq<string>, closers: seq<string>, i: nat): string
    requires i <= |raw| && i <= |closers|
  {
    if i == 0 then first else Seed(o, raw[i - 1]) + closers[i - 1]
  }

  /** A chunk that opened with `opening` and then only took in sections
      that fitted the budget: either it is still its opening, or it is at
      most one separator longer than `chunkSize`. */
  predicate Grew(o: ChunkOptions, opening: string, r: string) {
    StartsWith(r, opening) && (r == opening || |r| <= o.chunkSize + |o.separator|)
  }

  /** Each chunk `i < |closers|` was closed by `closers[i]`, a section of the
      text that would have taken it past `chunkSize`. */
  ghost predicate ClosedOver(o: ChunkOptions, sections: seq<string>, raw: seq<string>, closers: seq<string>)
    requires |closers| <= |raw|
  {
    forall i :: 0 <= i < |closers| ==> |raw[i]| + |closers[i]| > o.chunkSize && closers[i] in sections
  }

  /** Every chunk grew from its opening. */
  ghost predicate Opened(o: ChunkOptions, first: string, raw: seq<string>, closers: seq<string>)
    requires |raw| <= |closers| + 1
  {
    forall i {:trigger Opening(o, first, raw, closers, i)} :: 0 <= i < |raw| ==>
      Grew(o, Opening(o, first, raw, closers, i), raw[i])
  }

  /** The budget rule over the untrimmed chunks `raw` of a run: every chunk
      but the last was closed by a section that would have overflowed it,
      and every chunk grew from its opening by sections that fitted. */
  ghost predicate BudgetKept(o: ChunkOptions, sections: seq<string>, raw: seq<string>, closers: seq<string>) {
    && sections != [] && raw != []
    && |closers| == |raw| - 1
    && ClosedOver(o, sections, raw, closers)
    && Opened(o, sections[0], raw, closers)
  }

  lemma OpenedSnoc(o: ChunkOptions, first: string, raw: seq<string>, closers: seq<string>, closers': seq<string>, x: string)
    requires |raw| <= |closers| <= |closers'| && closers'[..|closers|] == closers
    requires Opened(o, first, raw, closers)
    requires Grew(o, Opening(o, first, raw, closers, |raw|), x)
    ensures Opened(o, first, raw + [x], closers')
  {
    var raw' := raw + [x];
    forall i | 0 <= i < |raw'| ensures Grew(o, Opening(o, first, raw', closers', i), raw'[i]) {
      if i > 0 {
        assert raw'[i - 1] == raw[i - 1] && closers'[i - 1] == closers[i - 1];
      }
      assert Opening(o, first, raw', closers', i) == Opening(o, first, raw, closers, i);
    }
  }

  lemma ClosedOverSnoc(o: ChunkOptions, sections: seq<string>, raw: seq<string>, closers: seq<string>, x: string, c: string)
    requires |closers| == |raw| && ClosedOver(o, sections, raw, closers)
    requires |x| + |c| > o.chunkSize && c in sections
    ensures ClosedOver(o, sections, raw + [x], closers + [c])
  {
    var raw', closers' := raw + [x], closers + [c];
    forall i | 0 <= i < |closers'| ensures |raw'[i]| + |closers'[i]| > o.chunkSize && closers'[i] in sections {
      if i < |closers| {
        assert raw'[i] == raw[i] && closers'[i] == closers[i];
      }
    }
  }

  lemma ClosedOverGrow(o: ChunkOptions, sections: seq<string>, raw: seq<string>, closers: seq<string>, x: string)
    requires |closers| <= |raw| && ClosedOver(o, sections, raw, closers)
    ensures ClosedOver(o, sections, raw + [x], closers)
  {
    forall i | 0 <= i < |closers| ensures (raw + [x])[i] == raw[i] {
    }
  }

  /** The loop keeps the budget rule over the closed chunks and the running
      one. */
  ghost predicate BudgetAcc(o: ChunkOptions, sections: seq<string>, k: nat, acc: Accumulator) {
    && (k == 0 ==> acc == Initial)
    && (k > 0 ==>
          && sections != [] && acc.current != []
          && |acc.closers| == |acc.closed|
          && ClosedOver(o, sections, acc.closed, acc.closers)
          && Opened(o, sections[0], acc.closed, acc.closers)
          && Grew(o, Opening(o, sections[0], acc.closed, acc.closers, |acc.closed|), acc.current))
  }

  /** Closing the running chunk on a section that overflows it keeps the
      rule, with the next chunk opened by the seed and that section. */
  lemma BudgetClose(o: ChunkOptions, sections: seq<string>, k: nat, acc: Accumulator)
    requires 0 < k < |sections| && BudgetAcc(o, sections, k, acc)
    requires |acc.current| + |sections[k]| > o.chunkSize && sections[k] != []
    ensures BudgetAcc(o, sections, k + 1, Step(o, acc, sections[k]))
  {
    var section := sections[k];
    var closed', closers' := acc.closed + [acc.current], acc.closers + [section];
    ClosedOverSnoc(o, sections, acc.closed, acc.closers, acc.current, section);
    OpenedSnoc(o, sections[0], acc.closed, acc.closers, closers', acc.current);
    assert Opening(o, sections[0], closed', closers', |closed'|) == Seed(o, acc.current) + section;
    assert StartsWith(Seed(o, acc.current) + section, Seed(o, acc.current) + section);
  }

  /** Appending a section that fits keeps the rule. */
  lemma BudgetAppend(o: ChunkOptions, sections: seq<string>, k: nat, acc: Accumulator)
    requires 0 < k < |sections| && BudgetAcc(o, sections, k, acc)
    requires |acc.current| + |sections[k]| <= o.chunkSize
    ensures BudgetAcc(o, sections, k + 1, Step(o, acc, sections[k]))
  {
    var section := sections[k];
    var opening := Opening(o, sections[0], acc.closed, acc.closers, |acc.closed|);
    StartsWithAppend(acc.current, opening, o.separator + section);
    assert acc.current + o.separator + section == acc.current + (o.separator + section);
  }

  lemma {:induction false} FoldBudget(o: ChunkOptions, sections: seq<string>, k: nat, acc: Accumulator)
    requires k <= |sections| && BudgetAcc(o, sections, k, acc)
    requires forall j :: 0 <= j < |sections| ==> sections[j] != []
    ensures BudgetAcc(o, sections, |sections|, Fold(o, sections, k, acc))
    decreases |sections| - k
  {
    if k < |sections| {
      if k == 0 {
        assert StartsWith(sections[0], sections[0]);
      } else if |acc.current| + |sections[k]| > o.chunkSize {
        BudgetClose(o, sections, k, acc);
      } else {
        BudgetAppend(o, sections, k, acc);
      }
      FoldBudget(o, sections, k + 1, Step(o, acc, sections[k]));
    }
  }

  /** The chunks a run emits keep the budget rule. */
  lemma RunBudget(o: ChunkOptions, text: string)
    ensures Finish(Run(o, text)) != [] ==>
              BudgetKept(o, Sections(text, o.separator), FinishRaw(Run(o, text)), Run(o, text).closers)
  {
    var sections := Sections(text, o.separator);
    if Finish(Run(o, text)) != [] {
      forall j | 0 <= j < |sections| ensures sections[j] != [] {
        NotBlankNonEmpty(sections[j]);
      }
      RunEmpty(o, text);
      FoldBudget(o, sections, 0, Initial);
      FoldInv(o, sections, 0, Initial);
      var acc := Run(o, text);
      ClosedOverGrow(o, sections, acc.closed, acc.closers, acc.current);
      OpenedSnoc(o, sections[0], acc.closed, acc.closers, acc.closers, acc.current);
    }
  }

  /** "aa\n\nbbb" has the two sections "aa" and "bbb". */
  lemma TwoSections()
    ensures Sections("aa\n\nbbb", "\n\n") == ["aa", "bbb"]
  {
    var text, sep := "aa\n\nbbb", "\n\n";
    assert OccursAt(text, sep, 2);
    assert text[0] == 'a' && text[1] == 'a';
    IndexOfIs(text, sep, 2);
    IndexOfNoFirstChar("bbb", sep);
    assert text[..2] == "aa" && text[2 + |sep|..] == "bbb";
    assert Split("bbb", sep) == ["bbb"];
    assert Split(text, sep) == ["aa", "bbb"];
    TrimOfTrimmed("aa");
    TrimOfTrimmed("bbb");
    assert NonBlank(["aa", "bbb"]) == ["aa", "bbb"];
  }

  /** The separator is left out of the budget: two sections of 2 and 3
      characters fit a `chunkSize` of 5, and are joined by "\n\n" into
      one chunk of 7. */
  lemma ChunkTextOverBudget()
    ensures ChunkText("aa\n\nbbb", ChunkOptionsInput(Some(5), Some(0), None))
         == Success([TextChunk("aa\n\nbbb", 0, 0, 9)])
    ensures |"aa\n\nbbb"| > 5
  {
    var text := "aa\n\nbbb";
    var o := ChunkOptions(5, 0, "\n\n");
    TwoSectionsRun();
    TrimOfTrimmed(text);
    assert ResolveOptions(ChunkOptionsInput(Some(5), Some(0), None)) == o;
    assert Finish(Run(o, text)) == [TextChunk(text, 0, 0, 9)];
  }

  /** Both sections of "aa\n\nbbb" go into one running chunk. */
  lemma TwoSectionsRun()
    ensures Run(ChunkOptions(5, 0, "\n\n"), "aa\n\nbbb") == Accumulator([], [], [], "aa\n\nbbb", 0, 0, 9)
  {
    var o := ChunkOptions(5, 0, "\n\n");
    TwoSections();
    TwoSectionsSteps();
    var sections := ["aa", "bbb"];
    assert Fold(o, sections, 0, Initial) == Fold(o, sections, 1, Step(o, Initial, sections[0]));
    assert Fold(o, sections, 1, Step(o, Initial, "aa"))
        == Fold(o, sections, 2, Step(o, Step(o, Initial, "aa"), sections[1]));
  }

  /** The two steps over "aa" and "bbb": the first opens the running chunk,
      the second fits (2 + 3 <= 5) and is appended after the separator. */
  lemma TwoSectionsSteps()
    ensures Step(ChunkOptions(5, 0, "\n\n"), Step(ChunkOptions(5, 0, "\n\n"), Initial, "aa"), "bbb")
         == Accumulator([], [], [], "aa\n\nbbb", 0, 0, 9)
  {
    var o := ChunkOptions(5, 0, "\n\n");
    var a1 := Step(o, Initial, "aa");
    assert a1 == Accumulator([], [], [], "aa", 0, 0, 4);
    assert "aa" + "\n\n" + "bbb" == "aa\n\nbbb";
  }

  /** With `chunkOverlap == 0` the carried tail is not empty but the whole
      previous chunk, because `slice(-0)` is `slice(0)`; by `Chained` every
      chunk then starts with the complete untrimmed text of the one before. */
  lemma ZeroOverlapCarriesWholeChunk(o: ChunkOptions, text: string)
    requires o.chunkOverlap == 0 && text != []
    ensures Overlap(o, text) == text
    ensures Seed(o, text) == text + o.separator
  {
    SliceFromNegated(text, 0);
  }

  /** When no piece of the split is blank, the sections join back into the
      text itself, so the spans above are spans of `text`. */
  lemma SectionsJoin(text: string, separator: string)
    requires separator != []
    requires forall k :: 0 <= k < |Split(text, separator)| ==> !Blank(Split(text, separator)[k])
    ensures Join(Sections(text, separator), separator) == text
  {
    SplitJoin(text, separator);
  }
}

/** lib/chunking.ts `semanticChunk`: recursive splitting on ever finer
    separators. */
module SemanticChunking {
  import opened Wrappers
  import opened JsString
  import opened Types
  import Chunking
  import TextExtraction
  import Validation

  /** Tried in this order: sections, paragraphs, lines, sentences, words. */
  const SemanticSeparators: seq<string> := ["\n\n\n", "\n\n", "\n", ". ", " "]

  /** The variables of the loop of one `splitRecursive` level. */
  datatype Level = Level(chunks: seq<TextChunk>, current: string, position: int)

  const Start := Level([], "", 0)

  /** `splitRecursive(text, seps)`: short text, or no separator left, gives
      the whole trimmed text as one chunk; otherwise the pieces of
      `text.split(seps[0])` are accumulated like `chunkText` does, and a
      running chunk longer than `size` is split again with the finer
      separators. */
  function SplitRecursive(size: int, overlap: int, text: string, seps: seq<string>): seq<TextChunk>
    decreases |seps|, 1, 0
  {
    if |seps| == 0 || |text| <= size then
      [TextChunk(Trim(text), 0, 0, |text|)]
    else
      LevelFinish(LevelFold(size, overlap, seps[0], seps[1..], SplitAny(text, seps[0]), 0, Start))
  }

  /** The running chunk as a single chunk ending at `position`. */
  function Whole(l: Level): TextChunk {
    TextChunk(Trim(l.current), |l.chunks|, l.position - |l.current|, l.position)
  }

  /** One iteration of the loop over the pieces. */
  function LevelStep(size: int, overlap: int, sep: string, rest: seq<string>, l: Level, split: string): Level
    decreases |rest| + 1, 0, 0
  {
    var position := l.position + |split| + |sep|;
    if |l.current| + |split| > size && |l.current| > 0 then
      var processed := if |l.current| > size then SplitRecursive(size, overlap, l.current, rest) else [Whole(l)];
      Level(l.chunks + processed, SliceFrom(l.current, -overlap) + sep + split, position)
    else
      Level(l.chunks, l.current + (if l.current != [] then sep else []) + split, position)
  }

  function LevelFold(size: int, overlap: int, sep: string, rest: seq<string>, splits: seq<string>, k: nat, l: Level): Level
    requires k <= |splits|
    decreases |rest| + 1, 0, |splits| - k
  {
    if k == |splits| then l
    else LevelFold(size, overlap, sep, rest, splits, k + 1, LevelStep(size, overlap, sep, rest, l, splits[k]))
  }

  /** The push of the last running chunk, unless it is blank. */
  function LevelFinish(l: Level): seq<TextChunk> {
    if Trim(l.current) != [] then l.chunks + [Whole(l)] else l.chunks
  }

  /** `semanticChunk`: the chunks of `splitRecursive` renumbered `0..N-1`. */
  function SemanticChunk(text: string, input: ChunkOptionsInput): (r: seq<TextChunk>)
  {
    var o := Chunking.ResolveOptions(input);
    var chunks := SplitRecursive(o.chunkSize, o.chunkOverlap, text, SemanticSeparators);
    seq(|chunks|, i requires 0 <= i < |chunks| => chunks[i].(index := i))
  }

  // ---------------------------------------------------------------------
  // Every chunk is trimmed text taken from the input
  // ---------------------------------------------------------------------

  ghost predicate Grounded(chunks: seq<TextChunk>, text: string) {
    forall i :: 0 <= i < |chunks| ==> IsTrimmed(chunks[i].text) && IsInfix(chunks[i].text, text)
  }

  lemma GroundedWiden(chunks: seq<TextChunk>, a: string, b: string)
    requires Grounded(chunks, a) && IsInfix(a, b)
    ensures Grounded(chunks, b)
  {
    forall i | 0 <= i < |chunks| ensures IsInfix(chunks[i].text, b) {
      InfixTrans(chunks[i].text, a, b);
    }
  }

  lemma GroundedConcat(xs: seq<TextChunk>, ys: seq<TextChunk>, text: string)
    requires Grounded(xs, text) && Grounded(ys, text)
    ensures Grounded(xs + ys, text)
  {
    forall i | 0 <= i < |xs + ys|
      ensures IsTrimmed((xs + ys)[i].text) && IsInfix((xs + ys)[i].text, text)
    {
      if i >= |xs| {
        assert (xs + ys)[i] == ys[i - |xs|];
      }
    }
  }

  /** The trim of text found in `text` is a trimmed chunk of it. */
  lemma TrimGrounded(c: TextChunk, s: string, text: string)
    requires c.text == Trim(s) && IsInfix(s, text)
    ensures Grounded([c], text)
  {
    TrimShape(s);
    TrimIsInfix(s);
    InfixTrans(Trim(s), s, text);
  }

  /** Between iterations, with `full` the pieces joined back: the emitted
      chunks are grounded in it and the running chunk ends what has been
      consumed. */
  ghost predicate LevelInv(sep: string, splits: seq<string>, k: nat, l: Level)
    requires k <= |splits|
  {
    && Grounded(l.chunks, Join(splits, sep))
    && (k == 0 ==> l.current == [])
    && (k > 0 ==> EndsWith(Join(splits[..k], sep), l.current))
  }

  lemma {:induction false} SplitRecursiveGrounded(size: int, overlap: int, text: string, seps: seq<string>)
    requires forall j :: 0 <= j < |seps| ==> seps[j] != []
    ensures Grounded(SplitRecursive(size, overlap, text, seps), text)
    decreases |seps|, 1, 0, 0
  {
    if |seps| == 0 || |text| <= size {
      assert OccursAt(text, text, 0);
      TrimGrounded(TextChunk(Trim(text), 0, 0, |text|), text, text);
    } else {
      var sep, rest := seps[0], seps[1..];
      var splits := SplitAny(text, sep);
      SplitJoin(text, sep);
      LevelFoldGrounded(size, overlap, sep, rest, splits, 0, Start);
      LevelFinishGrounded(sep, splits, LevelFold(size, overlap, sep, rest, splits, 0, Start));
    }
  }

  lemma {:induction false} LevelFoldGrounded(size: int, overlap: int, sep: string, rest: seq<string>, splits: seq<string>, k: nat, l: Level)
    requires sep != [] && forall j :: 0 <= j < |rest| ==> rest[j] != []
    requires k <= |splits| && LevelInv(sep, splits, k, l)
    ensures LevelInv(sep, splits, |splits|, LevelFold(size, overlap, sep, rest, splits, k, l))
    decreases |rest| + 1, 0, |splits| - k, 0
  {
    if k < |splits| {
      LevelStepGrounded(size, overlap, sep, rest, splits, k, l);
      LevelFoldGrounded(size, overlap, sep, rest, splits, k + 1, LevelStep(size, overlap, sep, rest, l, splits[k]));
    }
  }

  lemma LevelStepGrounded(size: int, overlap: int, sep: string, rest: seq<string>, splits: seq<string>, k: nat, l: Level)
    requires sep != [] && forall j :: 0 <= j < |rest| ==> rest[j] != []
    requires k < |splits| && LevelInv(sep, splits, k, l)
    ensures LevelInv(sep, splits, k + 1, LevelStep(size, overlap, sep, rest, l, splits[k]))
    decreases |rest| + 1, 0, 0, 1
  {
    if k == 0 {
      assert splits[..1] == [splits[0]];
    } else if |l.current| + |splits[k]| > size && |l.current| > 0 {
      LevelCloseGrounded(size, overlap, sep, rest, splits, k, l);
    } else {
      LevelAppendGrounded(size, overlap, sep, rest, splits, k, l);
    }
  }

  lemma ConsumedSplitsSnoc(sep: string, splits: seq<string>, k: nat)
    requires 0 < k < |splits|
    ensures Join(splits[..k + 1], sep) == Join(splits[..k], sep) + (sep + splits[k])
  {
    assert splits[..k + 1] == splits[..k] + [splits[k]];
    JoinSnoc(splits[..k], splits[k], sep);
  }

  lemma LevelAppendGrounded(size: int, overlap: int, sep: string, rest: seq<string>, splits: seq<string>, k: nat, l: Level)
    requires 0 < k < |splits| && LevelInv(sep, splits, k, l)
    requires !(|l.current| + |splits[k]| > size && |l.current| > 0)
    ensures LevelInv(sep, splits, k + 1, LevelStep(size, overlap, sep, rest, l, splits[k]))
  {
    ConsumedSplitsSnoc(sep, splits, k);
    AppendGrounded(sep, Join(splits[..k], sep), l, splits[k]);
  }

  lemma LevelCloseGrounded(size: int, overlap: int, sep: string, rest: seq<string>, splits: seq<string>, k: nat, l: Level)
    requires sep != [] && forall j :: 0 <= j < |rest| ==> rest[j] != []
    requires 0 < k < |splits| && LevelInv(sep, splits, k, l)
    requires |l.current| + |splits[k]| > size && |l.current| > 0
    ensures LevelInv(sep, splits, k + 1, LevelStep(size, overlap, sep, rest, l, splits[k]))
    decreases |rest| + 1, 0, 0, 0
  {
    var full := Join(splits, sep);
    var consumed := Join(splits[..k], sep);
    ConsumedSplitsSnoc(sep, splits, k);
    JoinPrefix(splits, k, sep);
    StartsWithInfix(full, consumed);
    EndsWithInfix(consumed, l.current);
    InfixTrans(l.current, consumed, full);
    SliceFromIsSuffix(l.current, -overlap);
    if |l.current| > size {
      SplitRecursiveGrounded(size, overlap, l.current, rest);
      GroundedWiden(SplitRecursive(size, overlap, l.current, rest), l.current, full);
      CloseGrounded(sep, full, consumed, l, splits[k], SplitRecursive(size, overlap, l.current, rest), SliceFrom(l.current, -overlap));
    } else {
      TrimGrounded(Whole(l), l.current, full);
      CloseGrounded(sep, full, consumed, l, splits[k], [Whole(l)], SliceFrom(l.current, -overlap));
    }
  }

  lemma CloseGrounded(sep: string, full: string, consumed: string, l: Level, split: string, processed: seq<TextChunk>, tail: string)
    requires Grounded(l.chunks, full) && Grounded(processed, full)
    requires EndsWith(consumed, l.current) && EndsWith(l.current, tail)
    ensures Grounded(l.chunks + processed, full)
    ensures EndsWith(consumed + (sep + split), tail + sep + split)
  {
    GroundedConcat(l.chunks, processed, full);
    EndsWithTrans(consumed, l.current, tail);
    EndsWithAppend(consumed, tail, sep + split);
    assert tail + sep + split == tail + (sep + split);
  }

  lemma AppendGrounded(sep: string, consumed: string, l: Level, split: string)
    ensures l.current != [] && EndsWith(consumed, l.current) ==>
              EndsWith(consumed + (sep + split), l.current + sep + split)
    ensures l.current == [] ==> EndsWith(consumed + (sep + split), l.current + [] + split)
  {
    if l.current != [] && EndsWith(consumed, l.current) {
      EndsWithAppend(consumed, l.current, sep + split);
      assert l.current + sep + split == l.current + (sep + split);
    }
    var whole := consumed + (sep + split);
    assert whole[|whole| - |split|..] == split;
  }

  lemma LevelFinishGrounded(sep: string, splits: seq<string>, l: Level)
    requires LevelInv(sep, splits, |splits|, l)
    ensures Grounded(LevelFinish(l), Join(splits, sep))
  {
    if Trim(l.current) != [] {
      if |splits| == 0 {
        TrimEmpty(l.current);
      }
      assert splits[..|splits|] == splits;
      EndsWithInfix(Join(splits, sep), l.current);
      TrimGrounded(Whole(l), l.current, Join(splits, sep));
      GroundedConcat(l.chunks, [Whole(l)], Join(splits, sep));
    }
  }

  // ---------------------------------------------------------------------
  // Properties of semanticChunk
  // ---------------------------------------------------------------------

  /** The result renumbers `splitRecursive`'s chunks `0..N-1` and keeps
      everything else; every chunk text is trimmed and occurs in the input. */
  lemma SemanticChunkGrounded(text: string, input: ChunkOptionsInput)
    ensures var o := Chunking.ResolveOptions(input);
            var raw := SplitRecursive(o.chunkSize, o.chunkOverlap, text, SemanticSeparators);
            var r := SemanticChunk(text, input);
            && |r| == |raw|
            && (forall i :: 0 <= i < |r| ==>
                  && r[i].index == i && r[i].text == raw[i].text
                  && r[i].startChar == raw[i].startChar && r[i].endChar == raw[i].endChar)
            && (forall i :: 0 <= i < |r| ==> IsTrimmed(r[i].text) && IsInfix(r[i].text, text))
  {
    var o := Chunking.ResolveOptions(input);
    SplitRecursiveGrounded(o.chunkSize, o.chunkOverlap, text, SemanticSeparators);
  }

  /** Text no longer than `chunkSize` comes back as one chunk: its trim,
      spanning the whole text. In particular the empty text gives one
      chunk with empty text. */
  lemma SemanticChunkShort(text: string, input: ChunkOptionsInput)
    ensures |text| <= Chunking.ResolveOptions(input).chunkSize ==>
              SemanticChunk(text, input) == [TextChunk(Trim(text), 0, 0, |text|)]
  {
  }

  /** All-whitespace input yields only chunks with empty text. */
  lemma SemanticChunkBlank(text: string, input: ChunkOptionsInput)
    ensures AllWhitespace(text) ==>
              forall i :: 0 <= i < |SemanticChunk(text, input)| ==> SemanticChunk(text, input)[i].text == []
  {
    if AllWhitespace(text) {
      SemanticChunkGrounded(text, input);
      var r := SemanticChunk(text, input);
      forall i | 0 <= i < |r| ensures r[i].text == [] {
        InfixAllWhitespace(r[i].text, text);
        TrimmedWhitespaceEmpty(r[i].text);
      }
    }
  }

  /** The last running chunk of a level is emitted without being split
      again, whatever its length: a four-letter word with `chunkSize` 1
      comes back whole, and its offsets are counted past the separator the
      loop adds after every piece. */
  lemma LastPieceNotSplit()
    ensures SemanticChunk("abcd", ChunkOptionsInput(Some(1), Some(0), None)) == [TextChunk("abcd", 0, 3, 7)]
    ensures !WithinBudget(1, SemanticChunk("abcd", ChunkOptionsInput(Some(1), Some(0), None))[0])
  {
    var word := "abcd";
    IndexOfNoFirstChar(word, "\n\n\n");
    assert SplitAny(word, "\n\n\n") == [word];
    var l := LevelStep(1, 0, "\n\n\n", SemanticSeparators[1..], Start, word);
    assert l == Level([], word, 7);
    assert LevelFold(1, 0, "\n\n\n", SemanticSeparators[1..], [word], 0, Start) == l;
    TrimOfTrimmed(word);
    assert LevelFinish(l) == [TextChunk(word, 0, 3, 7)];
    assert SplitRecursive(1, 0, word, SemanticSeparators) == [TextChunk(word, 0, 3, 7)];
  }

  /** Two spaces with `chunkSize` 1 give no chunk at all, while the empty
      text gives one empty chunk. */
  lemma BlankLongTextHasNoChunk()
    ensures SemanticChunk("  ", ChunkOptionsInput(Some(1), Some(0), None)) == []
    ensures SemanticChunk("", ChunkOptionsInput(Some(1), Some(0), None)) == [TextChunk("", 0, 0, 0)]
  {
    var spaces := "  ";
    IndexOfNoFirstChar(spaces, "\n\n\n");
    assert SplitAny(spaces, "\n\n\n") == [spaces];
    var l := LevelStep(1, 0, "\n\n\n", SemanticSeparators[1..], Start, spaces);
    assert l == Level([], spaces, 5);
    assert LevelFold(1, 0, "\n\n\n", SemanticSeparators[1..], [spaces], 0, Start) == l;
    assert Trim(spaces) == [];
  }
  /** A blank piece closed in the middle of a level is pushed without the
      blank check the last running chunk gets: "  \n\n\n  " with
      `chunkSize` 3 yields one chunk with empty text, which is shorter
      than the ten characters the chunk schema asks for. */
  lemma BlankPieceBecomesEmptyChunk()
    ensures SemanticChunk("  \n\n\n  ", ChunkOptionsInput(Some(3), Some(0), None)) == [TextChunk("", 0, 3, 5)]
    ensures |SemanticChunk("  \n\n\n  ", ChunkOptionsInput(Some(3), Some(0), None))[0].text| < Validation.MinChunkText
  {
    var text := "  \n\n\n  ";
    BlankPieceSplit();
    BlankPieceLevel();
    BlankPieceTrim();
    assert SplitRecursive(3, 0, text, SemanticSeparators) == [TextChunk("", 0, 3, 5)];
  }

  /** The level loop over the two blank pieces closes the first one. */
  lemma BlankPieceLevel()
    ensures LevelFold(3, 0, "\n\n\n", SemanticSeparators[1..], ["  ", "  "], 0, Start)
         == Level([TextChunk("", 0, 3, 5)], "  \n\n\n  ", 10)
  {
    var sep, spaces, rest := "\n\n\n", "  ", SemanticSeparators[1..];
    var l1 := LevelStep(3, 0, sep, rest, Start, spaces);
    assert l1 == Level([], spaces, 5);
    assert Trim(spaces) == [];
    assert Whole(l1) == TextChunk("", 0, 3, 5);
    assert SliceFrom(spaces, -0) == spaces;
    assert spaces + sep + spaces == "  \n\n\n  ";
    var l2 := LevelStep(3, 0, sep, rest, l1, spaces);
    assert l2 == Level([TextChunk("", 0, 3, 5)], "  \n\n\n  ", 10);
    assert LevelFold(3, 0, sep, rest, [spaces, spaces], 0, Start)
        == LevelFold(3, 0, sep, rest, [spaces, spaces], 1, l1);
    assert LevelFold(3, 0, sep, rest, [spaces, spaces], 1, l1)
        == LevelFold(3, 0, sep, rest, [spaces, spaces], 2, l2);
  }

  lemma BlankPieceTrim()
    ensures Trim("  \n\n\n  ") == []
  {
    TrimEmpty("  \n\n\n  ");
  }

  lemma BlankPieceSplit()
    ensures SplitAny("  \n\n\n  ", "\n\n\n") == ["  ", "  "]
  {
    var text, sep := "  \n\n\n  ", "\n\n\n";
    assert OccursAt(text, sep, 2);
    assert text[0] == ' ' && text[1] == ' ';
    IndexOfIs(text, sep, 2);
    IndexOfNoFirstChar("  ", sep);
    assert text[..2] == "  " && text[2 + |sep|..] == "  ";
    assert Split("  ", sep) == ["  "];
  }

  // ---------------------------------------------------------------------
  // Text without a section break
  // ---------------------------------------------------------------------

  /** A text in which the first separator, "\n\n\n", does not occur is a
      single piece at the first level. That piece becomes the level's last
      running chunk, which is emitted without being split again, so the
      text comes back as at most one chunk, its trim, however long it is
      and however many paragraph, line, sentence or word breaks it has. */
  lemma NoSectionBreakOneChunk(text: string, input: ChunkOptionsInput)
    requires IndexOf(text, "\n\n\n").None?
    ensures |SemanticChunk(text, input)| <= 1
    ensures Trim(text) != [] ==>
              |SemanticChunk(text, input)| == 1 && SemanticChunk(text, input)[0].text == Trim(text)
  {
    var o := Chunking.ResolveOptions(input);
    var size, overlap := o.chunkSize, o.chunkOverlap;
    if |text| > size {
      var sep, rest := SemanticSeparators[0], SemanticSeparators[1..];
      assert SplitAny(text, sep) == [text];
      var l := LevelStep(size, overlap, sep, rest, Start, text);
      assert l == Level([], text, |text| + 3);
      assert LevelFold(size, overlap, sep, rest, [text], 0, Start) == l;
    }
  }

  /** `cleanText` leaves no run of three newlines. */
  lemma CleanTextHasNoSectionBreak(text: string)
    ensures IndexOf(TextExtraction.CleanText(text), "\n\n\n").None?
  {
    var s := TextExtraction.CleanText(text);
    TextExtraction.CleanTextShape(text);
    forall j | 0 <= j ensures !OccursAt(s, "\n\n\n", j) {
      if j + 3 <= |s| {
        assert !(s[j] == '\n' && s[j + 1] == '\n' && s[j + 2] == '\n');
        assert s[j..j + 3][0] == s[j] && s[j..j + 3][1] == s[j + 1] && s[j..j + 3][2] == s[j + 2];
      }
    }
    IndexOfNoneIs(s, "\n\n\n");
  }

  /** Chunking a cleaned document, as ingestion does, gives at most one
      chunk, whatever the options: the whole cleaned text when it is not
      empty. */
  lemma CleanedDocumentIsOneChunk(text: string, input: ChunkOptionsInput)
    ensures |SemanticChunk(TextExtraction.CleanText(text), input)| <= 1
    ensures TextExtraction.CleanText(text) != [] ==>
              |SemanticChunk(TextExtraction.CleanText(text), input)| == 1
              && SemanticChunk(TextExtraction.CleanText(text), input)[0].text == TextExtraction.CleanText(text)
  {
    var s := TextExtraction.CleanText(text);
    CleanTextHasNoSectionBreak(text);
    TextExtraction.CleanTextVisible(text);
    TrimOfTrimmed(s);
    NoSectionBreakOneChunk(s, input);
  }

  // ---------------------------------------------------------------------
  // The split with the last running chunk treated like the others
  // ---------------------------------------------------------------------

  /** A chunk within the budget: its untrimmed span is at most `size`, or it
      is the whole of a piece no separator was left to split, the only kind
      of chunk that starts at offset 0 of the piece being split. */
  predicate WithinBudget(size: int, c: TextChunk) {
    c.endChar - c.startChar <= size || c.startChar == 0
  }

  ghost predicate AllWithinBudget(size: int, chunks: seq<TextChunk>) {
    forall i :: 0 <= i < |chunks| ==> WithinBudget(size, chunks[i])
  }

  /** `splitRecursive` with the last running chunk of a level processed
      like a closed one: split again with the finer separators when it is
      longer than `size`. */
  function SplitRecursiveIntended(size: int, overlap: int, text: string, seps: seq<string>): seq<TextChunk>
    decreases |seps|, 3, 0
  {
    if |seps| == 0 || |text| <= size then
      [TextChunk(Trim(text), 0, 0, |text|)]
    else
      LevelFinishIntended(size, overlap, seps[1..],
        LevelFoldIntended(size, overlap, seps[0], seps[1..], SplitAny(text, seps[0]), 0, Start))
  }

  /** What a running chunk becomes: split again when it is too long,
      otherwise itself. */
  function ProcessIntended(size: int, overlap: int, rest: seq<string>, l: Level): seq<TextChunk>
    decreases |rest| + 1, 0, 0
  {
    if |l.current| > size then SplitRecursiveIntended(size, overlap, l.current, rest) else [Whole(l)]
  }

  function LevelStepIntended(size: int, overlap: int, sep: string, rest: seq<string>, l: Level, split: string): Level
    decreases |rest| + 1, 1, 0
  {
    var position := l.position + |split| + |sep|;
    if |l.current| + |split| > size && |l.current| > 0 then
      Level(l.chunks + ProcessIntended(size, overlap, rest, l), SliceFrom(l.current, -overlap) + sep + split, position)
    else
      Level(l.chunks, l.current + (if l.current != [] then sep else []) + split, position)
  }

  function LevelFoldIntended(size: int, overlap: int, sep: string, rest: seq<string>, splits: seq<string>, k: nat, l: Level): Level
    requires k <= |splits|
    decreases |rest| + 1, 2, |splits| - k
  {
    if k == |splits| then l
    else LevelFoldIntended(size, overlap, sep, rest, splits, k + 1, LevelStepIntended(size, overlap, sep, rest, l, splits[k]))
  }

  function LevelFinishIntended(size: int, overlap: int, rest: seq<string>, l: Level): seq<TextChunk>
    decreases |rest| + 1, 2, 0
  {
    if Trim(l.current) != [] then l.chunks + ProcessIntended(size, overlap, rest, l) else l.chunks
  }

  function SemanticChunkIntended(text: string, input: ChunkOptionsInput): seq<TextChunk> {
    var o := Chunking.ResolveOptions(input);
    var chunks := SplitRecursiveIntended(o.chunkSize, o.chunkOverlap, text, SemanticSeparators);
    seq(|chunks|, i requires 0 <= i < |chunks| => chunks[i].(index := i))
  }

  lemma AllWithinBudgetConcat(size: int, xs: seq<TextChunk>, ys: seq<TextChunk>)
    requires AllWithinBudget(size, xs) && AllWithinBudget(size, ys)
    ensures AllWithinBudget(size, xs + ys)
  {
    forall i | 0 <= i < |xs + ys| ensures WithinBudget(size, (xs + ys)[i]) {
      if i >= |xs| {
        assert (xs + ys)[i] == ys[i - |xs|];
      }
    }
  }

  lemma {:induction false} IntendedWithinBudget(size: int, overlap: int, text: string, seps: seq<string>)
    ensures AllWithinBudget(size, SplitRecursiveIntended(size, overlap, text, seps))
    decreases |seps|, 3, 0
  {
    if |seps| > 0 && |text| > size {
      var l := LevelFoldIntended(size, overlap, seps[0], seps[1..], SplitAny(text, seps[0]), 0, Start);
      FoldIntendedWithinBudget(size, overlap, seps[0], seps[1..], SplitAny(text, seps[0]), 0, Start);
      if Trim(l.current) != [] {
        ProcessIntendedWithinBudget(size, overlap, seps[1..], l);
        AllWithinBudgetConcat(size, l.chunks, ProcessIntended(size, overlap, seps[1..], l));
      }
    }
  }

  lemma {:induction false} ProcessIntendedWithinBudget(size: int, overlap: int, rest: seq<string>, l: Level)
    ensures AllWithinBudget(size, ProcessIntended(size, overlap, rest, l))
    decreases |rest| + 1, 0, 0
  {
    if |l.current| > size {
      IntendedWithinBudget(size, overlap, l.current, rest);
    }
  }

  lemma {:induction false} StepIntendedWithinBudget(size: int, overlap: int, sep: string, rest: seq<string>, l: Level, split: string)
    requires AllWithinBudget(size, l.chunks)
    ensures AllWithinBudget(size, LevelStepIntended(size, overlap, sep, rest, l, split).chunks)
    decreases |rest| + 1, 1, 0
  {
    if |l.current| + |split| > size && |l.current| > 0 {
      ProcessIntendedWithinBudget(size, overlap, rest, l);
      AllWithinBudgetConcat(size, l.chunks, ProcessIntended(size, overlap, rest, l));
    }
  }

  lemma {:induction false} FoldIntendedWithinBudget(size: int, overlap: int, sep: string, rest: seq<string>, splits: seq<string>, k: nat, l: Level)
    requires k <= |splits| && AllWithinBudget(size, l.chunks)
    ensures AllWithinBudget(size, LevelFoldIntended(size, overlap, sep, rest, splits, k, l).chunks)
    decreases |rest| + 1, 2, |splits| - k
  {
    if k < |splits| {
      StepIntendedWithinBudget(size, overlap, sep, rest, l, splits[k]);
      FoldIntendedWithinBudget(size, overlap, sep, rest, splits, k + 1, LevelStepIntended(size, overlap, sep, rest, l, splits[k]));
    }
  }

  /** With the last running chunk split like the others, no chunk is over
      the budget unless no separator was left to split it. */
  lemma SemanticChunkIntendedWithinBudget(text: string, input: ChunkOptionsInput)
    ensures forall i :: 0 <= i < |SemanticChunkIntended(text, input)| ==>
              WithinBudget(Chunking.ResolveOptions(input).chunkSize, SemanticChunkIntended(text, input)[i])
  {
    var o := Chunking.ResolveOptions(input);
    IntendedWithinBudget(o.chunkSize, o.chunkOverlap, text, SemanticSeparators);
  }

  /** With the last running chunk split like the others, a separator that
      does not occur in a long, non-blank text is skipped and the next one
      is tried, where the code as written stops with the whole text. */
  lemma IntendedSkipsAbsentSeparator(size: int, overlap: int, text: string, seps: seq<string>)
    requires seps != [] && seps[0] != [] && IndexOf(text, seps[0]).None?
    requires |text| > size && Trim(text) != []
    ensures SplitRecursiveIntended(size, overlap, text, seps) == SplitRecursiveIntended(size, overlap, text, seps[1..])
  {
    var sep, rest := seps[0], seps[1..];
    assert SplitAny(text, sep) == [text];
    var l := LevelStepIntended(size, overlap, sep, rest, Start, text);
    assert l == Level([], text, |text| + |sep|);
    assert LevelFoldIntended(size, overlap, sep, rest, [text], 0, Start) == l;
    assert ProcessIntended(size, overlap, rest, l) == SplitRecursiveIntended(size, overlap, text, rest);
    assert LevelFinishIntended(size, overlap, rest, l) == [] + ProcessIntended(size, overlap, rest, l);
  }
}
