/** The `vector(768)` column type of db/schema.ts: how a number array is
    written to the driver and how the driver's text is read back. */
module VectorColumn {
  import opened Wrappers
  import opened JsString

  /** Width of the `embedding` column. */
  const Dimension: nat := 768

  /** A JavaScript number as `parseFloat` produces it, with exact reals in
      place of doubles. */
  datatype Num = Number(value: real) | PositiveInfinity | NegativeInfinity | NaN

  function Pow10(n: nat): (r: nat)
    ensures r >= 1
  {
    if n == 0 then 1 else 10 * Pow10(n - 1)
  }

  /** `x * 10^e` for an integer exponent of either sign. */
  function Scale(x: real, e: int): real {
    if e == 0 then x else if e > 0 then x * Pow10(e) as real else x / Pow10(-e) as real
  }

  /** The exponent part `e`/`E`, optional sign, digits, at the head of `s`:
      its value, or 0 when `s` does not start with a complete one (then
      `parseFloat` stops before it). */
  function ExponentOf(s: string): int {
    if s == [] || (s[0] != 'e' && s[0] != 'E') then 0
    else
      var t := s[1..];
      var negative := t != [] && t[0] == '-';
      var u := if t != [] && (t[0] == '-' || t[0] == '+') then t[1..] else t;
      var d := DigitRun(u);
      if d == 0 then 0
      else if negative then -(DigitsValue(u[..d]) as int) else DigitsValue(u[..d])
  }

  /** `parseFloat` after the sign: `Infinity`, or the longest prefix of the
      form digits, optional `.` and digits (at least one digit in all), and
      an optional exponent. `None` when no prefix qualifies. */
  function ParseUnsigned(u: string): Option<Num> {
    if StartsWith(u, "Infinity") then Some(PositiveInfinity)
    else
      var a := DigitRun(u);
      var rest := u[a..];
      var frac := if rest != [] && rest[0] == '.' then rest[1..][..DigitRun(rest[1..])] else [];
      var after := if rest != [] && rest[0] == '.' then rest[1 + |frac|..] else rest;
      if a == 0 && frac == [] then None
      else
        var mantissa := DigitsValue(u[..a] + frac) as real;
        Some(Number(Scale(if frac == [] then mantissa else mantissa / Pow10(|frac|) as real, ExponentOf(after))))
  }

  function Negate(n: Num): Num {
    match n
    case Number(x) => Number(-x)
    case PositiveInfinity => NegativeInfinity
    case NegativeInfinity => PositiveInfinity
    case NaN => NaN
  }

  /** JavaScript `parseFloat` (section 19.2.4 of ECMA-262): leading
      whitespace skipped, an optional sign, then the longest numeric prefix;
      `NaN` when there is none. */
  function ParseFloat(s: string): (n: Num)
    ensures TrimStart(s) == [] ==> n == NaN
  {
    var t := TrimStart(s);
    var negative := t != [] && t[0] == '-';
    var u := if t != [] && (t[0] == '-' || t[0] == '+') then t[1..] else t;
    match ParseUnsigned(u)
    case None => NaN
    case Some(m) => if negative then Negate(m) else m
  }

  function IntStrings(v: seq<int>): (r: seq<string>)
    ensures |r| == |v| && forall i :: 0 <= i < |v| ==> r[i] == IntToString(v[i])
  {
    seq(|v|, i requires 0 <= i < |v| => IntToString(v[i]))
  }

  /** `toDriver`: the pgvector text literal `[x1,x2,...]`. */
  function ToDriver(v: seq<int>): (r: string)
    ensures StartsWith(r, "[") && EndsWith(r, "]")
  {
    "[" + Join(IntStrings(v), ",") + "]"
  }

  /** What the driver hands back: a string, or something else (`null`,
      an already-parsed value). */
  datatype DriverValue = Text(text: string) | NotText

  /** `.replace(/^\[|\]$/g, "")`: one leading `[` and one trailing `]`, each
      only if present. */
  function StripBrackets(s: string): (r: string)
    ensures |r| <= |s|
  {
    var a := if s != [] && s[0] == '[' then s[1..] else s;
    if a != [] && a[|a| - 1] == ']' then a[..|a| - 1] else a
  }

  /** `fromDriver`. */
  function FromDriver(value: DriverValue): (r: seq<Num>)
    ensures !value.Text? || value.text == [] ==> r == []
    ensures value.Text? && value.text != [] ==> |r| >= 1
  {
    if !value.Text? || value.text == [] then []
    else
      var pieces := Split(StripBrackets(value.text), ",");
      seq(|pieces|, i requires 0 <= i < |pieces| => ParseFloat(Trim(pieces[i])))
  }

  // ---------------------------------------------------------------------
  // Properties
  // ---------------------------------------------------------------------

  /** `StripBrackets` removes at most one `[` in front and one `]` at the
      end, and only when they are there. */
  lemma StripBracketsShape(s: string)
    ensures exists pre, post ::
      && (pre == "" || pre == "[") && (post == "" || post == "]")
      && s == pre + StripBrackets(s) + post
      && (pre == "" ==> !StartsWith(s, "["))
      && (post == "" ==> !EndsWith(StripBrackets(s), "]"))
  {
    var r := StripBrackets(s);
    var pre := if s != [] && s[0] == '[' then "[" else "";
    var a := s[|pre|..];
    var post := if a != [] && a[|a| - 1] == ']' then "]" else "";
    assert a == r + post;
    assert s == pre + a;
    assert s == pre + r + post;
  }

  /** Brackets are never commas: stripping keeps the comma count. */
  lemma StripBracketsCommas(s: string)
    ensures CountChar(StripBrackets(s), ',') == CountChar(s, ',')
  {
    var r := StripBrackets(s);
    var pre := if s != [] && s[0] == '[' then "[" else "";
    var a := s[|pre|..];
    var post := if a != [] && a[|a| - 1] == ']' then "]" else "";
    assert a == r + post;
    assert s == pre + a;
    CountCharConcat(pre, a, ',');
    CountCharConcat(r, post, ',');
  }

  /** A non-empty driver string yields one number per comma, plus one. */
  lemma FromDriverCount(s: string)
    requires s != []
    ensures |FromDriver(Text(s))| == CountChar(s, ',') + 1
  {
    SplitCharCount(StripBrackets(s), ',');
    StripBracketsCommas(s);
  }

  lemma TrimStartNoLeadingSpace(s: string)
    requires s != [] && !IsJsWhitespace(s[0])
    ensures TrimStart(s) == s
  {
  }

  /** A plain digit string reads back as its value. */
  lemma ParseUnsignedDigits(u: string)
    requires u != [] && forall k :: 0 <= k < |u| ==> IsDigit(u[k])
    ensures ParseUnsigned(u) == Some(Number(DigitsValue(u) as real))
  {
    DigitRunAll(u);
    NotInfinity(u);
    var rest := u[|u|..];
    assert rest == [];
    assert u[..|u|] + [] == u;
    assert ExponentOf([]) == 0;
  }

  lemma NotInfinity(u: string)
    requires u != [] && IsDigit(u[0])
    ensures !StartsWith(u, "Infinity")
  {
    if |u| >= 8 {
      assert u[..8][0] == u[0];
    }
  }

  /** `parseFloat(String(n)) == n` for every integer printed in plain
      decimal. */
  lemma ParseFloatIntToString(n: int)
    ensures ParseFloat(IntToString(n)) == Number(n as real)
  {
    if n < 0 {
      ParseFloatNegativeInt(n);
    } else {
      ParseFloatNat(n);
    }
  }

  lemma ParseFloatNat(n: nat)
    ensures ParseFloat(NatToString(n)) == Number(n as real)
  {
    var s := NatToString(n);
    ParseUnsignedNat(n);
    ParseFloatUnsigned(s, Number(n as real));
  }

  lemma ParseUnsignedNat(n: nat)
    ensures ParseUnsigned(NatToString(n)) == Some(Number(n as real))
  {
    ParseUnsignedDigits(NatToString(n));
    NatToStringValue(n);
  }

  lemma ParseFloatNegativeInt(n: int)
    requires n < 0
    ensures ParseFloat(IntToString(n)) == Number(n as real)
  {
    var u := NatToString(-n);
    ParseUnsignedNat(-n);
    ParseFloatNegative(u, Number((-n) as real));
    assert Negate(Number((-n) as real)) == Number(n as real);
  }

  lemma ParseFloatNegative(u: string, m: Num)
    requires ParseUnsigned(u) == Some(m)
    ensures ParseFloat("-" + u) == Negate(m)
  {
    var s := "-" + u;
    assert TrimStart(s) == s;
    assert s[1..] == u;
  }

  lemma ParseFloatUnsigned(s: string, m: Num)
    requires s != [] && IsDigit(s[0]) && ParseUnsigned(s) == Some(m)
    ensures ParseFloat(s) == m
  {
    assert TrimStart(s) == s;
  }

  lemma IntToStringTrimmed(n: int)
    ensures Trim(IntToString(n)) == IntToString(n)
  {
    var s := IntToString(n);
    assert IsTrimmed(s);
    TrimOfTrimmed(s);
  }

  /** Reading back what `toDriver` wrote gives the same numbers, for every
      non-empty integer vector. */
  lemma RoundTrip(v: seq<int>)
    requires v != []
    ensures FromDriver(Text(ToDriver(v))) == seq(|v|, i requires 0 <= i < |v| => Number(v[i] as real))
  {
    var parts := IntStrings(v);
    var body := Join(parts, ",");
    var s := ToDriver(v);
    assert s[1..] == body + "]";
    assert StripBrackets(s) == body;
    forall k, j | 0 <= k < |parts| && 0 <= j < |parts[k]| ensures parts[k][j] != ',' {
    }
    SplitJoinChar(parts, ',');
    var r := FromDriver(Text(s));
    forall i | 0 <= i < |v| ensures r[i] == Number(v[i] as real) {
      IntToStringTrimmed(v[i]);
      ParseFloatIntToString(v[i]);
    }
  }

  /** The one vector that does not survive the trip: `[]` is written as
      `[]` and read back as a single `NaN`. */
  lemma EmptyVectorReadsAsNaN()
    ensures ToDriver([]) == "[]"
    ensures FromDriver(Text(ToDriver([]))) == [NaN]
  {
    assert StripBrackets("[]") == "";
    IndexOfNoFirstChar("", ",");
    assert Split("", ",") == [""];
  }
}

/** The three related tables of db/schema.ts (`documents`, `chunks`,
    `embeddings`) as maps from serial ids to rows, with the foreign-key,
    cascade, uniqueness and dimension rules the database enforces. */
module Database {
  import opened Wrappers
  import opened Types
  import VectorColumn

  datatype Document = Document(title: string, docType: string, version: Option<string>, metadata: Option<Json>)

  datatype Chunk = Chunk(documentId: nat, chunkText: string, chunkIndex: int, metadata: Option<Json>)

  datatype Embedding = Embedding(chunkId: nat, embedding: seq<int>)

  /** Rows by id, and the next value of each table's serial sequence. */
  datatype Store = Store(
    documents: map<nat, Document>,
    chunks: map<nat, Chunk>,
    embeddings: map<nat, Embedding>,
    nextDocument: nat,
    nextChunk: nat,
    nextEmbedding: nat)

  datatype StoreError = ForeignKeyViolation | UniqueViolation | DimensionMismatch(expected: nat, actual: nat)

  const Empty := Store(map[], map[], map[], 1, 1, 1)

  /** The integrity the schema declares: every chunk belongs to a document,
      every embedding to a chunk, at most one embedding per chunk, every
      stored vector has 768 components, and ids come from the sequences. */
  predicate Valid(st: Store) {
    && (forall c :: c in st.chunks ==> st.chunks[c].documentId in st.documents)
    && (forall e :: e in st.embeddings ==> st.embeddings[e].chunkId in st.chunks)
    && (forall e, f :: e in st.embeddings && f in st.embeddings && e != f ==>
          st.embeddings[e].chunkId != st.embeddings[f].chunkId)
    && (forall e :: e in st.embeddings ==> |st.embeddings[e].embedding| == VectorColumn.Dimension)
    && (forall d :: d in st.documents ==> d < st.nextDocument)
    && (forall c :: c in st.chunks ==> c < st.nextChunk)
    && (forall e :: e in st.embeddings ==> e < st.nextEmbedding)
  }

  lemma EmptyValid()
    ensures Valid(Empty)
  {
  }

  /** The embedding stored for a chunk, if any. */
  predicate HasEmbedding(st: Store, chunkId: nat) {
    exists e :: e in st.embeddings && st.embeddings[e].chunkId == chunkId
  }

  /** `INSERT INTO documents`: always accepted, under the next serial id. */
  function InsertDocument(st: Store, d: Document): (r: (Store, nat))
    ensures r.1 !in st.documents ==> r.0.documents == st.documents[r.1 := d]
    ensures r.0.chunks == st.chunks && r.0.embeddings == st.embeddings
    ensures Valid(st) ==> Valid(r.0) && r.1 !in st.documents && r.0.documents == st.documents[r.1 := d]
  {
    var id := st.nextDocument;
    (st.(documents := st.documents[id := d], nextDocument := id + 1), id)
  }

  /** `INSERT INTO chunks`: rejected when the document does not exist. */
  function InsertChunk(st: Store, c: Chunk): (r: Result<(Store, nat), StoreError>)
    ensures r.Failure? <==> c.documentId !in st.documents
    ensures r.Failure? ==> r.error == ForeignKeyViolation
    ensures r.Success? ==> r.value.0.documents == st.documents && r.value.0.embeddings == st.embeddings
    ensures r.Success? && Valid(st) ==>
      Valid(r.value.0) && r.value.1 !in st.chunks && r.value.0.chunks == st.chunks[r.value.1 := c]
  {
    if c.documentId !in st.documents then Failure(ForeignKeyViolation)
    else
      var id := st.nextChunk;
      Success((st.(chunks := st.chunks[id := c], nextChunk := id + 1), id))
  }

  /** `INSERT INTO embeddings`: the vector literal must have 768 components,
      the chunk must not have an embedding yet, and it must exist. */
  function InsertEmbedding(st: Store, e: Embedding): (r: Result<(Store, nat), StoreError>)
    ensures r.Success? <==>
      |e.embedding| == VectorColumn.Dimension && !HasEmbedding(st, e.chunkId) && e.chunkId in st.chunks
    ensures |e.embedding| != VectorColumn.Dimension ==> r == Failure(DimensionMismatch(VectorColumn.Dimension, |e.embedding|))
    ensures r.Success? ==> r.value.0.documents == st.documents && r.value.0.chunks == st.chunks
    ensures r.Success? && Valid(st) ==>
      Valid(r.value.0) && r.value.1 !in st.embeddings && r.value.0.embeddings == st.embeddings[r.value.1 := e]
  {
    if |e.embedding| != VectorColumn.Dimension then Failure(DimensionMismatch(VectorColumn.Dimension, |e.embedding|))
    else if HasEmbedding(st, e.chunkId) then Failure(UniqueViolation)
    else if e.chunkId !in st.chunks then Failure(ForeignKeyViolation)
    else
      var id := st.nextEmbedding;
      Success((st.(embeddings := st.embeddings[id := e], nextEmbedding := id + 1), id))
  }

  /** Embeddings whose chunk survives in `chunks`. */
  function EmbeddingsOf(embeddings: map<nat, Embedding>, chunks: map<nat, Chunk>): map<nat, Embedding> {
    map e | e in embeddings && embeddings[e].chunkId in chunks :: embeddings[e]
  }

  /** `DELETE FROM documents`: `ON DELETE CASCADE` removes the document's
      chunks, and through them their embeddings. */
  function DeleteDocument(st: Store, id: nat): (r: Store)
    ensures id !in r.documents
    ensures forall d :: d in r.documents <==> d in st.documents && d != id
    ensures forall c :: c in r.chunks <==> c in st.chunks && st.chunks[c].documentId != id
    ensures forall e :: e in r.embeddings <==> e in st.embeddings && st.embeddings[e].chunkId in r.chunks
    ensures Valid(st) ==> Valid(r)
  {
    var chunks := map c | c in st.chunks && st.chunks[c].documentId != id :: st.chunks[c];
    st.(documents := map d | d in st.documents && d != id :: st.documents[d],
        chunks := chunks,
        embeddings := EmbeddingsOf(st.embeddings, chunks))
  }

  /** `DELETE FROM chunks`: its embedding goes with it. */
  function DeleteChunk(st: Store, id: nat): (r: Store)
    ensures r.documents == st.documents
    ensures forall c :: c in r.chunks <==> c in st.chunks && c != id
    ensures !HasEmbedding(r, id)
    ensures Valid(st) ==> forall e :: e in r.embeddings <==> e in st.embeddings && st.embeddings[e].chunkId != id
    ensures Valid(st) ==> Valid(r)
  {
    var chunks := map c | c in st.chunks && c != id :: st.chunks[c];
    st.(chunks := chunks, embeddings := EmbeddingsOf(st.embeddings, chunks))
  }

  /** `DELETE FROM embeddings`: nothing refers to an embedding. */
  function DeleteEmbedding(st: Store, id: nat): (r: Store)
    ensures r.documents == st.documents && r.chunks == st.chunks
    ensures forall e :: e in r.embeddings <==> e in st.embeddings && e != id
    ensures Valid(st) ==> Valid(r)
  {
    st.(embeddings := map e | e in st.embeddings && e != id :: st.embeddings[e])
  }

  /** After a chunk is stored with its embedding, a second embedding for the
      same chunk is refused whatever its vector. */
  lemma SecondEmbeddingRefused(st: Store, e: Embedding, v: seq<int>)
    requires Valid(st) && InsertEmbedding(st, e).Success?
    requires |v| == VectorColumn.Dimension
    ensures InsertEmbedding(InsertEmbedding(st, e).value.0, Embedding(e.chunkId, v)) == Failure(UniqueViolation)
  {
    var st' := InsertEmbedding(st, e).value.0;
    var id := InsertEmbedding(st, e).value.1;
    assert id in st'.embeddings && st'.embeddings[id].chunkId == e.chunkId;
  }

  /** Deleting a document leaves no row that mentions it, directly or
      through a chunk. */
  lemma DeleteDocumentLeavesNoTrace(st: Store, id: nat)
    requires Valid(st)
    ensures forall c :: c in DeleteDocument(st, id).chunks ==> DeleteDocument(st, id).chunks[c].documentId != id
    ensures forall e :: e in DeleteDocument(st, id).embeddings ==>
      DeleteDocument(st, id).embeddings[e].chunkId in st.chunks &&
      st.chunks[DeleteDocument(st, id).embeddings[e].chunkId].documentId != id
  {
  }
}
