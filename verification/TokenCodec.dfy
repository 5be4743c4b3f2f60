/** The ack token's wire form: stream/consumer/seq/attempt/generation. */
module TokenCodec {
  import opened Common

  datatype Token = Token(stream: string, consumer: string, seqNo: nat, attempt: nat, generation: nat)

  const MAX_TOKEN_LEN: nat := 171
  const MAX_NAME_BYTES: nat := 64
  const MAX_INT64: nat := 0x7FFF_FFFF_FFFF_FFFF
  const MAX_INT32: nat := 0x7FFF_FFFF
  const UINT64_LIMIT: nat := 0x1_0000_0000_0000_0000

  // ---- names -------------------------------------------------------------------------

  predicate NameChar(c: char, dots: bool) {
    'a' <= c <= 'z' || 'A' <= c <= 'Z' || '0' <= c <= '9' || c == '_' || c == '-' || (c == '.' && dots)
  }

  predicate ValidName(s: string, dots: bool) {
    && 0 < |s| <= MAX_NAME_BYTES
    && (forall i | 0 <= i < |s| :: NameChar(s[i], dots))
    && (dots ==> s[0] != '.' && s[|s| - 1] != '.' && forall i | 0 <= i < |s| - 1 :: !(s[i] == '.' && s[i + 1] == '.'))
  }

  predicate WordChar(c: char) {
    'a' <= c <= 'z' || 'A' <= c <= 'Z' || '0' <= c <= '9' || c == '_' || c == '-'
  }

  predicate Word(w: string) {
    w != [] && forall i | 0 <= i < |w| :: WordChar(w[i])
  }

  ghost predicate Words(ws: seq<string>) {
    ws != [] && forall i | 0 <= i < |ws| :: Word(ws[i])
  }

  function Dotted(ws: seq<string>): string {
    if ws == [] then [] else if |ws| == 1 then ws[0] else ws[0] + "." + Dotted(ws[1..])
  }

  /** The charset and the dot rules, length apart. */
  predicate Spelled(s: string) {
    && s != [] && (forall i | 0 <= i < |s| :: NameChar(s[i], true))
    && s[0] != '.' && s[|s| - 1] != '.' && forall i | 0 <= i < |s| - 1 :: !(s[i] == '.' && s[i + 1] == '.')
  }

  lemma {:induction false} DottedIsSpelled(ws: seq<string>)
    requires Words(ws)
    ensures Spelled(Dotted(ws))
  {
    if |ws| == 1 {
      assert Word(ws[0]);
    } else {
      DottedIsSpelled(ws[1..]);
      SpelledJoin(ws[0], Dotted(ws[1..]));
    }
  }

  lemma SpelledJoin(w: string, r: string)
    requires Word(w) && Spelled(r)
    ensures Spelled(w + "." + r)
  {
    var s := w + "." + r;
    assert forall i | 0 <= i < |w| :: s[i] == w[i];
    assert s[|w|] == '.';
    assert forall i | 0 <= i < |r| :: s[|w| + 1 + i] == r[i];
    assert s[|s| - 1] == r[|r| - 1];
    forall i | 0 <= i < |s| ensures NameChar(s[i], true) {
      if i > |w| {
        assert s[i] == r[i - |w| - 1];
      }
    }
    forall i | 0 <= i < |s| - 1 ensures !(s[i] == '.' && s[i + 1] == '.') {
      if i > |w| {
        assert s[i] == r[i - |w| - 1] && s[i + 1] == r[i - |w|];
      }
    }
  }

  lemma {:induction false} SpelledIsDotted(s: string) returns (ws: seq<string>)
    requires Spelled(s)
    ensures Words(ws) && Dotted(ws) == s
  {
    if forall i | 0 <= i < |s| :: s[i] != '.' {
      ws := [s];
    } else {
      var i := 0;
      while s[i] != '.'
        invariant 0 <= i < |s| && forall k | 0 <= k < i :: s[k] != '.'
        decreases |s| - i
      {
        if i + 1 == |s| {
          assert false;
        }
        i := i + 1;
      }
      var rest := SpelledIsDotted(s[i + 1..]);
      ws := [s[..i]] + rest;
      assert ws[1..] == rest;
    }
  }

  /** A stream name is one or more words joined by dots, a consumer name a single word, 64
      bytes at most. */
  lemma NamesAreWords(s: string)
    ensures ValidName(s, true) <==> |s| <= 64 && exists ws :: Words(ws) && Dotted(ws) == s
    ensures ValidName(s, false) <==> |s| <= 64 && Word(s)
  {
    if Spelled(s) {
      var ws := SpelledIsDotted(s);
    }
    if ws :| Words(ws) && Dotted(ws) == s {
      DottedIsSpelled(ws);
    }
  }

  predicate Alphanumeric(c: char) {
    'a' <= c <= 'z' || 'A' <= c <= 'Z' || '0' <= c <= '9'
  }

  /** A valid name starts and ends alphanumeric, as documented, exactly when neither end is
      an underscore or a hyphen: the code checks no such thing. */
  lemma EdgesAlphanumericIff(s: string, dots: bool)
    requires ValidName(s, dots)
    ensures Alphanumeric(s[0]) && Alphanumeric(s[|s| - 1]) <==> s[0] !in "_-" && s[|s| - 1] !in "_-"
  {
    assert "_-"[0] == '_' && "_-"[1] == '-';
  }

  lemma HyphenIsAName()
    ensures ValidName("-", false) && !Alphanumeric("-"[0])
  {
  }

  // ---- decimal fields ----------------------------------------------------------------

  predicate IsDigit(c: char) {
    '0' <= c <= '9'
  }

  predicate AllDigits(s: string) {
    forall i | 0 <= i < |s| :: IsDigit(s[i])
  }

  function DigitOf(d: nat): char
    requires d < 10
  {
    ('0' as int + d) as char
  }

  function ValueOf(c: char): nat
    requires IsDigit(c)
  {
    c as int - '0' as int
  }

  /** %d of a non-negative number. */
  function Decimal(n: nat): string {
    if n < 10 then [DigitOf(n)] else Decimal(n / 10) + [DigitOf(n % 10)]
  }

  function Value(s: string): nat
    requires AllDigits(s)
  {
    if s == [] then 0 else Value(s[..|s| - 1]) * 10 + ValueOf(s[|s| - 1])
  }

  /** One field: digits only, no leading zero, within 64 bits. */
  function ParseField(s: string): Option<nat> {
    if s == [] || s[0] == '0' then None
    else if !AllDigits(s) then None
    else if Value(s) >= UINT64_LIMIT then None
    else Some(Value(s))
  }

  function ParseRange(s: string, max: nat): Option<nat> {
    match ParseField(s)
    case None => None
    case Some(v) => if v == 0 || v > max then None else Some(v)
  }

  lemma {:induction false} DecimalReads(n: nat)
    ensures AllDigits(Decimal(n)) && Value(Decimal(n)) == n && |Decimal(n)| >= 1
    ensures n > 0 ==> Decimal(n)[0] != '0'
  {
    if n >= 10 {
      DecimalReads(n / 10);
      var s := Decimal(n);
      assert s[..|s| - 1] == Decimal(n / 10);
    }
  }

  lemma {:induction false} ValuePositive(s: string)
    requires AllDigits(s) && s != [] && s[0] != '0'
    ensures Value(s) > 0
  {
    if |s| > 1 {
      ValuePositive(s[..|s| - 1]);
    }
  }

  lemma DecimalSnoc(v: nat, d: nat)
    requires v > 0 && d < 10
    ensures Decimal(v * 10 + d) == Decimal(v) + [DigitOf(d)]
  {
    assert (v * 10 + d) / 10 == v && (v * 10 + d) % 10 == d;
  }

  /** A canonical digit string is the rendering of its value. */
  lemma {:induction false} DecimalWrites(s: string)
    requires AllDigits(s) && s != [] && s[0] != '0'
    ensures Decimal(Value(s)) == s
  {
    var n := |s| - 1;
    if n > 0 {
      DecimalWrites(s[..n]);
      ValuePositive(s[..n]);
      DecimalSnoc(Value(s[..n]), ValueOf(s[n]));
      assert s == s[..n] + [s[n]];
    } else {
      assert s[..0] == [];
    }
  }

  function Pow10(k: nat): nat {
    if k == 0 then 1 else 10 * Pow10(k - 1)
  }

  lemma {:induction false} DecimalLength(n: nat, k: nat)
    requires k >= 1 && n < Pow10(k)
    ensures |Decimal(n)| <= k
  {
    if n >= 10 {
      DecimalLength(n / 10, k - 1);
    }
  }

  /** A number in range survives the field parser, and only its rendering parses to it. */
  lemma FieldRoundTrip(n: nat, max: nat)
    requires 1 <= n <= max < UINT64_LIMIT
    ensures ParseRange(Decimal(n), max) == Some(n)
  {
    DecimalReads(n);
  }

  lemma FieldIsCanonical(s: string, max: nat)
    requires ParseRange(s, max).Some?
    ensures 1 <= ParseRange(s, max).value <= max && Decimal(ParseRange(s, max).value) == s
  {
    DecimalWrites(s);
  }

  // ---- cutting -----------------------------------------------------------------------

  /** strings.Cut at the first slash. */
  function Cut(s: string): Option<(string, string)> {
    if s == [] then None
    else if s[0] == '/' then Some(([], s[1..]))
    else
      match Cut(s[1..])
      case None => None
      case Some((a, r)) => Some(([s[0]] + a, r))
  }

  predicate SlashFree(s: string) {
    forall i | 0 <= i < |s| :: s[i] != '/'
  }

  lemma {:induction false} CutJoin(a: string, r: string)
    requires SlashFree(a)
    ensures Cut(a + "/" + r) == Some((a, r))
  {
    var s := a + "/" + r;
    if a == [] {
      assert s[1..] == r;
    } else {
      CutJoin(a[1..], r);
      assert s[1..] == a[1..] + "/" + r;
      assert [a[0]] + a[1..] == a;
    }
  }

  lemma {:induction false} CutSound(s: string)
    ensures Cut(s).Some? ==> s == Cut(s).value.0 + "/" + Cut(s).value.1
  {
    if s != [] && s[0] != '/' {
      CutSound(s[1..]);
      assert s == [s[0]] + s[1..];
    }
  }

  lemma NamesAreSlashFree(s: string, dots: bool)
    requires ValidName(s, dots)
    ensures SlashFree(s)
  {
  }

  lemma DigitsAreSlashFree(n: nat)
    ensures SlashFree(Decimal(n))
  {
    DecimalReads(n);
  }

  // ---- the codec ---------------------------------------------------------------------

  predicate InRange(t: Token) {
    && ValidName(t.stream, true) && ValidName(t.consumer, false)
    && 1 <= t.seqNo <= MAX_INT64 && 1 <= t.attempt <= MAX_INT32 && 1 <= t.generation <= MAX_INT32
  }

  function Render(t: Token): string {
    t.stream + "/" + (t.consumer + "/" + (Decimal(t.seqNo) + "/" + (Decimal(t.attempt) + "/" + Decimal(t.generation))))
  }

  /** The five fields of a token string. */
  function Fields(s: string): Option<(string, string, string, string, string)> {
    match Cut(s)
    case None => None
    case Some((stream, r1)) =>
      match Cut(r1)
      case None => None
      case Some((consumer, r2)) =>
        match Cut(r2)
        case None => None
        case Some((seqNo, r3)) =>
          match Cut(r3)
          case None => None
          case Some((attempt, generation)) => Some((stream, consumer, seqNo, attempt, generation))
  }

  function Parse(s: string): Option<Token> {
    if |s| > MAX_TOKEN_LEN || s == [] then None
    else
      match Fields(s)
      case None => None
      case Some((stream, consumer, q, a, g)) =>
        if !ValidName(stream, true) || !ValidName(consumer, false) then None
        else
          match (ParseRange(q, MAX_INT64), ParseRange(a, MAX_INT32), ParseRange(g, MAX_INT32))
          case (Some(seqNo), Some(attempt), Some(generation)) => Some(Token(stream, consumer, seqNo, attempt, generation))
          case _ => None
  }

  lemma FieldsOfRender(t: Token)
    requires InRange(t)
    ensures Fields(Render(t)) == Some((t.stream, t.consumer, Decimal(t.seqNo), Decimal(t.attempt), Decimal(t.generation)))
  {
    var q, a, g := Decimal(t.seqNo), Decimal(t.attempt), Decimal(t.generation);
    NamesAreSlashFree(t.stream, true);
    NamesAreSlashFree(t.consumer, false);
    DigitsAreSlashFree(t.seqNo);
    DigitsAreSlashFree(t.attempt);
    CutJoin(a, g);
    CutJoin(q, a + "/" + g);
    CutJoin(t.consumer, q + "/" + (a + "/" + g));
    CutJoin(t.stream, t.consumer + "/" + (q + "/" + (a + "/" + g)));
  }

  /** No valid token renders longer than the parser's limit. */
  lemma RenderFits(t: Token)
    requires InRange(t)
    ensures 0 < |Render(t)| <= MAX_TOKEN_LEN
  {
    assert Pow10(10) == 10_000_000_000;
    assert Pow10(19) == 10_000_000_000 * 1_000_000_000;
    DecimalLength(t.seqNo, 19);
    DecimalLength(t.attempt, 10);
    DecimalLength(t.generation, 10);
  }

  /** Every valid token survives rendering and parsing. */
  lemma ParseRender(t: Token)
    requires InRange(t)
    ensures Parse(Render(t)) == Some(t)
  {
    RenderFits(t);
    FieldsOfRender(t);
    FieldRoundTrip(t.seqNo, MAX_INT64);
    FieldRoundTrip(t.attempt, MAX_INT32);
    FieldRoundTrip(t.generation, MAX_INT32);
  }

  lemma FieldsSound(s: string)
    requires Fields(s).Some?
    ensures var f := Fields(s).value; s == f.0 + "/" + (f.1 + "/" + (f.2 + "/" + (f.3 + "/" + f.4)))
  {
    CutSound(s);
    var r1 := Cut(s).value.1;
    CutSound(r1);
    var r2 := Cut(r1).value.1;
    CutSound(r2);
    CutSound(Cut(r2).value.1);
  }

  /** Every accepted string is the rendering of the valid token it parses to. */
  lemma RenderParse(s: string)
    requires Parse(s).Some?
    ensures InRange(Parse(s).value) && Render(Parse(s).value) == s
  {
    FieldsSound(s);
    var f := Fields(s).value;
    FieldIsCanonical(f.2, MAX_INT64);
    FieldIsCanonical(f.3, MAX_INT32);
    FieldIsCanonical(f.4, MAX_INT32);
  }

  /** The accepted strings are exactly the renderings of valid tokens. */
  lemma AcceptedIffRendered(s: string)
    ensures Parse(s).Some? <==> exists t :: InRange(t) && Render(t) == s
  {
    if Parse(s).Some? {
      RenderParse(s);
    }
    if t :| InRange(t) && Render(t) == s {
      ParseRender(t);
    }
  }

  /** One token, one string. */
  lemma RenderInjective(t: Token, u: Token)
    requires InRange(t) && InRange(u) && Render(t) == Render(u)
    ensures t == u
  {
    ParseRender(t);
    ParseRender(u);
  }
}
