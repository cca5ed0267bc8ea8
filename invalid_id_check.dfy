/** The Czech ID-document check: the number-format validator built from four
    anchored regular expressions, the document-type membership test, and the
    decision taken on the reply of the Ministry of the Interior's service of
    invalid documents. The HTTP request, the XML parsing and the date parsing
    are parameters. */
module InvalidIdCheck {
  import opened Wrappers

  // ---------------------------------------------------------------------
  // Regular expressions as data
  // ---------------------------------------------------------------------

  /** The character classes the four expressions use: `[1-9]`, `\d`, `[A-Z]`, `\s`. */
  datatype CharClass = NonZeroDigit | Digit | UpperLetter | Space

  /** JavaScript's `\s`: the white-space and line-terminator characters of ECMAScript. */
  predicate IsJsWhitespace(c: char) {
    ('\U{0009}' <= c <= '\U{000D}') || c == ' ' || c == '\U{00A0}' || c == '\U{1680}'
    || ('\U{2000}' <= c <= '\U{200A}') || c == '\U{2028}' || c == '\U{2029}'
    || c == '\U{202F}' || c == '\U{205F}' || c == '\U{3000}' || c == '\U{FEFF}'
  }

  predicate InClass(c: char, k: CharClass) {
    match k
    case NonZeroDigit => '1' <= c <= '9'
    case Digit => '0' <= c <= '9'
    case UpperLetter => 'A' <= c <= 'Z'
    case Space => IsJsWhitespace(c)
  }

  predicate AllIn(s: string, k: CharClass) {
    forall i :: 0 <= i < |s| ==> InClass(s[i], k)
  }

  /** A character class repeated between `min` and `max` times (`\d{0,2}`, `\s?`, ...). */
  datatype Atom = Atom(cls: CharClass, min: nat, max: nat)

  /** An expression anchored at both ends, `^a1 a2 ... an$`. */
  type Pattern = seq<Atom>

  /** `regexes` of the source, in declaration order. */
  const Op: Pattern := [Atom(NonZeroDigit, 1, 1), Atom(Digit, 8, 8)]
  const Ops: Pattern := [Atom(UpperLetter, 2, 2), Atom(Digit, 0, 2), Atom(Space, 0, 1), Atom(Digit, 6, 6)]
  const Cp: Pattern := [Atom(NonZeroDigit, 1, 1), Atom(Digit, 7, 7)]
  const Zp: Pattern := [Atom(UpperLetter, 2, 2), Atom(Space, 0, 1), Atom(Digit, 6, 6)]
  const Regexes: seq<Pattern> := [Op, Ops, Cp, Zp]

  /** The whole of `s` matches `p` (what `RegExp.test` answers for an anchored expression). */
  predicate Matches(p: Pattern, s: string)
    decreases |p|, if p == [] then 0 else p[0].max + 2
  {
    if p == [] then s == [] else MatchesFrom(p, s, p[0].min)
  }

  /** The whole of `s` matches `p` with the first atom taking at least `n` characters. */
  predicate MatchesFrom(p: Pattern, s: string, n: nat)
    requires p != []
    decreases |p|, if n <= p[0].max then p[0].max - n + 1 else 0
  {
    n <= p[0].max && n <= |s| &&
    ((AllIn(s[..n], p[0].cls) && Matches(p[1..], s[n..])) || MatchesFrom(p, s, n + 1))
  }

  /** The first atom of `p` takes exactly `m` characters of `s` and the rest of `p` matches the rest. */
  predicate Split(p: Pattern, s: string, m: nat)
    requires p != []
  {
    p[0].min <= m <= p[0].max && m <= |s| && AllIn(s[..m], p[0].cls) && Matches(p[1..], s[m..])
  }

  lemma {:induction false} MatchesFromSplit(p: Pattern, s: string, n: nat)
    requires p != [] && p[0].min <= n
    ensures MatchesFrom(p, s, n) <==> exists m :: n <= m && Split(p, s, m)
    decreases if n <= p[0].max then p[0].max - n + 1 else 0
  {
    if n <= p[0].max && n <= |s| {
      MatchesFromSplit(p, s, n + 1);
      if MatchesFrom(p, s, n) && !Split(p, s, n) {
        var m :| n + 1 <= m && Split(p, s, m);
      }
      if m :| n <= m && Split(p, s, m) {
        if m != n {
          assert n + 1 <= m && Split(p, s, m);
        }
      }
    }
  }

  /** A match of `p` is a choice of how many characters the first atom takes. */
  lemma MatchesSplit(p: Pattern, s: string)
    requires p != []
    ensures Matches(p, s) <==> exists m :: Split(p, s, m)
  {
    MatchesFromSplit(p, s, p[0].min);
  }

  lemma ExactAtom(p: Pattern, s: string)
    requires p != [] && p[0].min == p[0].max
    ensures Matches(p, s) <==>
      p[0].min <= |s| && AllIn(s[..p[0].min], p[0].cls) && Matches(p[1..], s[p[0].min..])
  {
    MatchesSplit(p, s);
    if p[0].min <= |s| && AllIn(s[..p[0].min], p[0].cls) && Matches(p[1..], s[p[0].min..]) {
      assert Split(p, s, p[0].min);
    }
  }

  lemma OptionalAtom(p: Pattern, s: string)
    requires p != [] && p[0].min == 0 && p[0].max == 1
    ensures Matches(p, s) <==>
      Matches(p[1..], s) || (1 <= |s| && InClass(s[0], p[0].cls) && Matches(p[1..], s[1..]))
  {
    MatchesSplit(p, s);
    if Matches(p[1..], s) {
      assert s[0..] == s;
      assert Split(p, s, 0);
    }
    if 1 <= |s| && InClass(s[0], p[0].cls) && Matches(p[1..], s[1..]) {
      assert Split(p, s, 1);
    }
    if Matches(p, s) {
      var m :| Split(p, s, m);
      if m == 0 { assert s[0..] == s; }
    }
  }

  lemma EmptyPattern(s: string)
    ensures Matches([], s) <==> s == []
  {
  }

  /** `\d{6}$`: exactly six digits. */
  lemma SixDigits(s: string)
    ensures Matches([Atom(Digit, 6, 6)], s) <==> |s| == 6 && AllIn(s, Digit)
  {
    ExactAtom([Atom(Digit, 6, 6)], s);
    assert [Atom(Digit, 6, 6)][1..] == [];
    if |s| >= 6 { assert |s[6..]| == |s| - 6; }
    if |s| == 6 { assert s[..6] == s; }
  }

  /** `\s?\d{6}$`: six digits after an optional white space. */
  lemma SpaceSixDigits(s: string)
    ensures Matches([Atom(Space, 0, 1), Atom(Digit, 6, 6)], s) <==>
      (|s| == 6 && AllIn(s, Digit)) || (|s| == 7 && IsJsWhitespace(s[0]) && AllIn(s[1..], Digit))
  {
    var p := [Atom(Space, 0, 1), Atom(Digit, 6, 6)];
    OptionalAtom(p, s);
    assert p[1..] == [Atom(Digit, 6, 6)];
    SixDigits(s);
    if 1 <= |s| { SixDigits(s[1..]); }
  }

  // ---------------------------------------------------------------------
  // The four accepted shapes, stated directly
  // ---------------------------------------------------------------------

  /** Nine digits, the first not zero (`op`). */
  predicate NineDigitNumber(s: string) {
    |s| == 9 && '1' <= s[0] <= '9' && AllIn(s[1..], Digit)
  }

  /** Eight digits, the first not zero (`cp`). */
  predicate EightDigitNumber(s: string) {
    |s| == 8 && '1' <= s[0] <= '9' && AllIn(s[1..], Digit)
  }

  /** Two letters, `k` digits, `w` white-space characters, then six digits. */
  predicate Shape(s: string, k: nat, w: nat) {
    |s| == 8 + k + w && AllIn(s[..2], UpperLetter) && AllIn(s[2..2 + k], Digit)
    && AllIn(s[2 + k..2 + k + w], Space) && AllIn(s[2 + k + w..], Digit)
  }

  /** Two letters, zero to two digits, an optional white space, six digits (`ops`). */
  predicate LettersDigitsSpaceDigits(s: string) {
    exists k: nat, w: nat :: k <= 2 && w <= 1 && Shape(s, k, w)
  }

  /** Two letters, an optional white space, six digits (`zp`). */
  predicate LettersSpaceDigits(s: string) {
    Shape(s, 0, 0) || Shape(s, 0, 1)
  }

  /** `^[1-9]\d{N}$` for N = 8 (`op`) and N = 7 (`cp`). */
  lemma LeadingDigitThen(n: nat, s: string)
    ensures Matches([Atom(NonZeroDigit, 1, 1), Atom(Digit, n, n)], s) <==>
      |s| == n + 1 && '1' <= s[0] <= '9' && AllIn(s[1..], Digit)
  {
    var p := [Atom(NonZeroDigit, 1, 1), Atom(Digit, n, n)];
    ExactAtom(p, s);
    assert p[1..] == [Atom(Digit, n, n)];
    if 1 <= |s| {
      var t := s[1..];
      ExactAtom(p[1..], t);
      assert p[1..][1..] == [];
      if n <= |t| { assert |t[n..]| == |t| - n; }
      if |t| == n { assert t[..n] == t; }
    }
  }

  lemma {:induction false} OpMeansNineDigits(s: string)
    ensures Matches(Op, s) <==> NineDigitNumber(s)
  {
    LeadingDigitThen(8, s);
  }

  lemma {:induction false} CpMeansEightDigits(s: string)
    ensures Matches(Cp, s) <==> EightDigitNumber(s)
  {
    LeadingDigitThen(7, s);
  }

  /** Both letter patterns begin with `[A-Z]{2}`. */
  lemma TwoLetters(p: Pattern, s: string)
    requires p != [] && p[0] == Atom(UpperLetter, 2, 2)
    ensures Matches(p, s) <==> 2 <= |s| && AllIn(s[..2], UpperLetter) && Matches(p[1..], s[2..])
  {
    ExactAtom(p, s);
  }

  lemma {:induction false} ZpMeansLettersSpaceDigits(s: string)
    ensures Matches(Zp, s) <==> LettersSpaceDigits(s)
  {
    TwoLetters(Zp, s);
    assert Zp[1..] == [Atom(Space, 0, 1), Atom(Digit, 6, 6)];
    if 2 <= |s| {
      var t := s[2..];
      SpaceSixDigits(t);
      assert Shape(s, 0, 0) <==> AllIn(s[..2], UpperLetter) && |t| == 6 && AllIn(t, Digit) by {
        assert s[2..2 + 0] == [];
        assert s[2 + 0..2 + 0 + 0] == [];
        assert s[2 + 0 + 0..] == t;
      }
      assert Shape(s, 0, 1) <==>
        AllIn(s[..2], UpperLetter) && |t| == 7 && IsJsWhitespace(t[0]) && AllIn(t[1..], Digit) by {
        assert s[2..2 + 0] == [];
        if |s| >= 3 {
          assert s[2 + 0..2 + 0 + 1] == [t[0]];
          assert s[2 + 0 + 1..] == t[1..];
        }
      }
    }
  }

  /** What may follow the two letters of `ops` when its `\d{0,2}` takes `k` digits. */
  predicate OpsTail(t: string, k: nat) {
    k <= 2 && k <= |t| && AllIn(t[..k], Digit) &&
    ((|t| == k + 6 && AllIn(t[k..], Digit)) || (|t| == k + 7 && IsJsWhitespace(t[k]) && AllIn(t[k + 1..], Digit)))
  }

  /** `\d{0,2}\s?\d{6}$` after the two letters. */
  lemma DigitsSpaceSixDigits(t: string)
    ensures Matches([Atom(Digit, 0, 2), Atom(Space, 0, 1), Atom(Digit, 6, 6)], t) <==>
      exists k: nat :: OpsTail(t, k)
  {
    var p := [Atom(Digit, 0, 2), Atom(Space, 0, 1), Atom(Digit, 6, 6)];
    assert p[1..] == [Atom(Space, 0, 1), Atom(Digit, 6, 6)];
    MatchesSplit(p, t);
    forall k: nat | k <= 2 && k <= |t|
      ensures Split(p, t, k) <==> OpsTail(t, k)
    {
      SpaceSixDigits(t[k..]);
      if k < |t| { assert t[k..][1..] == t[k + 1..]; }
    }
  }

  lemma OpsTailGivesShape(s: string, k: nat)
    requires 2 <= |s| && AllIn(s[..2], UpperLetter) && OpsTail(s[2..], k)
    ensures LettersDigitsSpaceDigits(s)
  {
    var t := s[2..];
    assert s[2..2 + k] == t[..k];
    if |t| == k + 6 {
      assert s[2 + k..2 + k + 0] == [];
      assert s[2 + k + 0..] == t[k..];
      assert Shape(s, k, 0);
    } else {
      assert s[2 + k..2 + k + 1] == [t[k]];
      assert s[2 + k + 1..] == t[k + 1..];
      assert Shape(s, k, 1);
    }
  }

  lemma ShapeGivesOpsTail(s: string, k: nat, w: nat)
    requires k <= 2 && w <= 1 && Shape(s, k, w)
    ensures OpsTail(s[2..], k)
  {
    var t := s[2..];
    assert s[2..2 + k] == t[..k];
    if w == 0 {
      assert s[2 + k..] == t[k..];
    } else {
      assert s[2 + k..2 + k + 1][0] == t[k];
      assert s[2 + k + 1..] == t[k + 1..];
    }
  }

  lemma {:induction false} OpsMeansLettersDigitsSpaceDigits(s: string)
    ensures Matches(Ops, s) <==> LettersDigitsSpaceDigits(s)
  {
    TwoLetters(Ops, s);
    assert Ops[1..] == [Atom(Digit, 0, 2), Atom(Space, 0, 1), Atom(Digit, 6, 6)];
    if 2 <= |s| {
      var t := s[2..];
      DigitsSpaceSixDigits(t);
      if Matches(Ops, s) {
        var k: nat :| OpsTail(t, k);
        OpsTailGivesShape(s, k);
      }
      if LettersDigitsSpaceDigits(s) {
        var k: nat, w: nat :| k <= 2 && w <= 1 && Shape(s, k, w);
        ShapeGivesOpsTail(s, k, w);
      }
    }
  }

  /** `zp` adds nothing to `ops`: every string it accepts, `ops` accepts too. */
  lemma {:induction false} ZpWithinOps(s: string)
    ensures Matches(Zp, s) ==> Matches(Ops, s)
  {
    ZpMeansLettersSpaceDigits(s);
    OpsMeansLettersDigitsSpaceDigits(s);
  }

  // ---------------------------------------------------------------------
  // Upper-casing
  // ---------------------------------------------------------------------

  /** The upper-case form of one character, as `String.prototype.toUpperCase` gives it,
      for every character whose upper-case form consists of ASCII letters (the Latin
      small letters, the dotless i, the long s, the sharp s and the Latin ligatures);
      every other character is kept. */
  function UpperCaseOf(c: char): (u: string)
    ensures 1 <= |u| <= 3
  {
    if 'a' <= c <= 'z' then [(c as int - 32) as char]
    else if c == '\U{0131}' then "I"
    else if c == '\U{017F}' then "S"
    else if c == '\U{00DF}' then "SS"
    else if c == '\U{FB00}' then "FF"
    else if c == '\U{FB01}' then "FI"
    else if c == '\U{FB02}' then "FL"
    else if c == '\U{FB03}' then "FFI"
    else if c == '\U{FB04}' then "FFL"
    else if c == '\U{FB05}' || c == '\U{FB06}' then "ST"
    else [c]
  }

  function ToUpper(s: string): (u: string)
    ensures |s| <= |u|
  {
    if s == [] then [] else UpperCaseOf(s[0]) + ToUpper(s[1..])
  }

  lemma {:induction false} ToUpperAppend(a: string, b: string)
    ensures ToUpper(a + b) == ToUpper(a) + ToUpper(b)
  {
    if a == [] {
      assert a + b == b;
    } else {
      assert (a + b)[0] == a[0];
      assert (a + b)[1..] == a[1..] + b;
      ToUpperAppend(a[1..], b);
    }
  }

  lemma UpperCaseOfIsUpper(c: char)
    ensures ToUpper(UpperCaseOf(c)) == UpperCaseOf(c)
  {
    var u := UpperCaseOf(c);
    assert forall i :: 0 <= i < |u| ==> UpperCaseOf(u[i]) == [u[i]];
    if |u| == 1 {
      assert ToUpper(u) == UpperCaseOf(u[0]) + ToUpper(u[1..]);
    } else if |u| == 2 {
      assert ToUpper(u) == UpperCaseOf(u[0]) + ToUpper(u[1..]);
      assert ToUpper(u[1..]) == UpperCaseOf(u[1]) + ToUpper(u[2..]);
    } else {
      assert ToUpper(u) == UpperCaseOf(u[0]) + ToUpper(u[1..]);
      assert ToUpper(u[1..]) == UpperCaseOf(u[1]) + ToUpper(u[2..]);
      assert ToUpper(u[2..]) == UpperCaseOf(u[2]) + ToUpper(u[3..]);
    }
  }

  /** Upper-casing twice is upper-casing once. */
  lemma {:induction false} ToUpperIdempotent(s: string)
    ensures ToUpper(ToUpper(s)) == ToUpper(s)
  {
    if s != [] {
      ToUpperAppend(UpperCaseOf(s[0]), ToUpper(s[1..]));
      UpperCaseOfIsUpper(s[0]);
      ToUpperIdempotent(s[1..]);
    }
  }

  /** A string without any character that upper-casing changes is its own upper-case form. */
  lemma {:induction false} ToUpperOfDigits(s: string)
    requires AllIn(s, Digit)
    ensures ToUpper(s) == s
  {
    if s != [] {
      ToUpperOfDigits(s[1..]);
    }
  }

  // ---------------------------------------------------------------------
  // The format validator and the document types
  // ---------------------------------------------------------------------

  /** `R.anyPass` over the tests of `patterns`. */
  predicate AnyPass(patterns: seq<Pattern>, s: string) {
    exists i :: 0 <= i < |patterns| && Matches(patterns[i], s)
  }

  /** `isCzechIdDocumentNumberFormat`: some expression matches the upper-cased number. */
  predicate IsCzechIdDocumentNumberFormat(idNumber: string) {
    AnyPass(Regexes, ToUpper(idNumber))
  }

  /** The number format accepts exactly the numbers whose upper-cased form has one of
      the four shapes. */
  lemma FormatAcceptsExactlyTheFourShapes(idNumber: string)
    ensures IsCzechIdDocumentNumberFormat(idNumber) <==>
      var u := ToUpper(idNumber);
      NineDigitNumber(u) || EightDigitNumber(u) || LettersDigitsSpaceDigits(u) || LettersSpaceDigits(u)
  {
    var u := ToUpper(idNumber);
    OpMeansNineDigits(u);
    OpsMeansLettersDigitsSpaceDigits(u);
    CpMeansEightDigits(u);
    ZpMeansLettersSpaceDigits(u);
    assert Regexes[0] == Op && Regexes[1] == Ops && Regexes[2] == Cp && Regexes[3] == Zp;
  }

  /** The verdict ignores case: a number and its upper-cased form are judged alike. */
  lemma {:induction false} FormatIgnoresCase(idNumber: string)
    ensures IsCzechIdDocumentNumberFormat(ToUpper(idNumber)) == IsCzechIdDocumentNumberFormat(idNumber)
  {
    ToUpperIdempotent(idNumber);
  }

  /** Every accepted number has 8 to 11 characters once upper-cased. */
  lemma AcceptedLength(idNumber: string)
    requires IsCzechIdDocumentNumberFormat(idNumber)
    ensures 8 <= |ToUpper(idNumber)| <= 11
  {
    FormatAcceptsExactlyTheFourShapes(idNumber);
  }

  /** The example number of the doc comment has the format, through the nine-digit pattern `op`. */
  lemma DocCommentExampleHasFormat()
    ensures Matches(Op, "200436652")
    ensures IsCzechIdDocumentNumberFormat("200436652")
  {
    var s := "200436652";
    assert AllIn(s, Digit);
    ToUpperOfDigits(s);
    OpMeansNineDigits(s);
    assert Regexes[0] == Op;
  }

  /** `toUpperCase` turns the sharp s into two letters: `ß` followed by digits becomes
      `SS` followed by the same digits. */
  lemma SharpSUpperCasesToTwoLetters(digits: string)
    requires AllIn(digits, Digit)
    ensures ToUpper(['\U{00DF}'] + digits) == "SS" + digits
  {
    ToUpperOfDigits(digits);
    ToUpperAppend(['\U{00DF}'], digits);
    assert ToUpper(['\U{00DF}']) == "SS" + [];
  }

  /** Numbers are upper-cased before the test, so the sharp s stands for two letters and
      `ß123456` is accepted. */
  lemma SharpSCountsAsTwoLetters()
    ensures IsCzechIdDocumentNumberFormat("\U{00DF}123456")
  {
    var digits := "123456";
    assert AllIn(digits, Digit);
    SharpSUpperCasesToTwoLetters(digits);
    assert "\U{00DF}123456" == ['\U{00DF}'] + digits;
    var u := "SS" + digits;
    assert Shape(u, 0, 0);
    FormatAcceptsExactlyTheFourShapes("\U{00DF}123456");
  }

  /** `isTypeAbleToValidateIdDocumentType`: the type is a key of `DOCUMENT_CHECK_TYPES`,
      whose values are the service's document codes. */
  predicate IsTypeAbleToValidateIdDocumentType(idType: string, documentCheckTypes: map<string, string>) {
    idType in documentCheckTypes
  }

  // ---------------------------------------------------------------------
  // The check
  // ---------------------------------------------------------------------

  /** The parsed reply of the service: an error element (`chyba`) with its text, an
      answer (`odpoved`) with its `evidovano` and `evidovano_od` attributes, a document
      holding neither, or no document at all because the request, reading the body or
      parsing the XML failed. */
  datatype Reply =
    | ErrorReply(text: string)
    | Answer(evidovano: string, evidovanoOd: string)
    | Malformed
    | RequestFailed

  /** The query sent: the number as given and the document code of its type. */
  datatype Request = Request(number: string, doklad: string)

  datatype CheckResult = Valid | Invalid(invalidFrom: int)

  /** The rejection reasons: the service's error, reading `_attributes` of a missing
      `odpoved`, and a failed request or parse, passed on as it is. */
  datatype Failure = DocumentCheckError(message: string) | TypeError | RequestError

  /** What the async function does: resolve with a result or reject with an error. */
  datatype Outcome = Returned(result: CheckResult) | Threw(failure: Failure)

  /** The request made, if any, and the outcome. */
  datatype CheckRun = CheckRun(request: Option<Request>, outcome: Outcome)

  /** The decision on the service's reply; `parseDate` stands for reading `evidovano_od`
      as a `DD.MM.YYYY` date of the operating time zone. */
  function DecideOnReply(reply: Reply, parseDate: string -> int): (o: Outcome)
    ensures o.Threw? <==> !reply.Answer?
    ensures o.Threw? && o.failure.DocumentCheckError? <==> reply.ErrorReply?
    ensures o.Threw? && o.failure.RequestError? <==> reply.RequestFailed?
  {
    match reply
    case ErrorReply(text) => Threw(DocumentCheckError(text))
    case Answer(evidovano, evidovanoOd) =>
      if evidovano == "ano" then Returned(Invalid(parseDate(evidovanoOd))) else Returned(Valid)
    case Malformed => Threw(TypeError)
    case RequestFailed => Threw(RequestError)
  }

  predicate Checkable(idNumber: string, idType: string, documentCheckTypes: map<string, string>) {
    IsTypeAbleToValidateIdDocumentType(idType, documentCheckTypes) && IsCzechIdDocumentNumberFormat(idNumber)
  }

  /** `invalidIdDocumentCheck`, with `service` standing for the fetch and the XML parsing. */
  function InvalidIdDocumentCheck(idNumber: string, idType: string, documentCheckTypes: map<string, string>,
                                  service: Request -> Reply, parseDate: string -> int): (run: CheckRun)
    ensures run.request.Some? <==> Checkable(idNumber, idType, documentCheckTypes)
  {
    if Checkable(idNumber, idType, documentCheckTypes) then
      var request := Request(idNumber, documentCheckTypes[idType]);
      CheckRun(Some(request), DecideOnReply(service(request), parseDate))
    else
      CheckRun(None, Returned(Valid))
  }

  /** A type without a document code, or a number without the format: valid, and no request. */
  lemma UncheckableIsValid(idNumber: string, idType: string, documentCheckTypes: map<string, string>,
                           service: Request -> Reply, parseDate: string -> int)
    requires !IsTypeAbleToValidateIdDocumentType(idType, documentCheckTypes) || !IsCzechIdDocumentNumberFormat(idNumber)
    ensures InvalidIdDocumentCheck(idNumber, idType, documentCheckTypes, service, parseDate) == CheckRun(None, Returned(Valid))
  {
  }

  /** An error reply rejects with `DocumentCheckError` carrying the reply's text, and never
      returns a result. */
  lemma ErrorReplyThrows(idNumber: string, idType: string, documentCheckTypes: map<string, string>,
                         service: Request -> Reply, parseDate: string -> int)
    requires Checkable(idNumber, idType, documentCheckTypes)
    requires service(Request(idNumber, documentCheckTypes[idType])).ErrorReply?
    ensures var run := InvalidIdDocumentCheck(idNumber, idType, documentCheckTypes, service, parseDate);
      run.outcome == Threw(DocumentCheckError(service(Request(idNumber, documentCheckTypes[idType])).text))
  {
  }

  /** A failed request or parse rejects with that failure, and never returns a result. */
  lemma FailedRequestThrows(idNumber: string, idType: string, documentCheckTypes: map<string, string>,
                            service: Request -> Reply, parseDate: string -> int)
    requires Checkable(idNumber, idType, documentCheckTypes)
    requires service(Request(idNumber, documentCheckTypes[idType])).RequestFailed?
    ensures InvalidIdDocumentCheck(idNumber, idType, documentCheckTypes, service, parseDate).outcome == Threw(RequestError)
  {
  }

  /** Only a type with a document code is queried, with that code and the number as given. */
  lemma QueryCarriesTheTypesCode(idNumber: string, idType: string, documentCheckTypes: map<string, string>,
                                 service: Request -> Reply, parseDate: string -> int)
    ensures var run := InvalidIdDocumentCheck(idNumber, idType, documentCheckTypes, service, parseDate);
      run.request.Some? ==>
        && IsTypeAbleToValidateIdDocumentType(idType, documentCheckTypes)
        && run.request.value == Request(idNumber, documentCheckTypes[idType])
  {
  }

  /** The result is "invalid" exactly when the number was queried and the answer says
      `evidovano="ano"`; it then carries the parsed `evidovano_od`. */
  lemma InvalidExactlyWhenRegistered(idNumber: string, idType: string, documentCheckTypes: map<string, string>,
                                     service: Request -> Reply, parseDate: string -> int)
    ensures var run := InvalidIdDocumentCheck(idNumber, idType, documentCheckTypes, service, parseDate);
      (run.outcome.Returned? && run.outcome.result.Invalid?) <==>
        (Checkable(idNumber, idType, documentCheckTypes)
         && var reply := service(Request(idNumber, documentCheckTypes[idType]));
            reply.Answer? && reply.evidovano == "ano"
            && run.outcome.result == Invalid(parseDate(reply.evidovanoOd)))
  {
  }

  /** The result is "valid" exactly when no query was made, or the answer says anything
      other than `ano`. */
  lemma ValidExactlyWhenNotRegistered(idNumber: string, idType: string, documentCheckTypes: map<string, string>,
                                      service: Request -> Reply, parseDate: string -> int)
    ensures var run := InvalidIdDocumentCheck(idNumber, idType, documentCheckTypes, service, parseDate);
      run.outcome == Returned(Valid) <==>
        (!Checkable(idNumber, idType, documentCheckTypes)
         || var reply := service(Request(idNumber, documentCheckTypes[idType]));
            reply.Answer? && reply.evidovano != "ano")
  {
  }

  /** The doc comment's example (number 200436652, type 0) is sent to the service whenever
      type 0 has a document code. */
  lemma DocCommentExampleIsQueried(documentCheckTypes: map<string, string>, service: Request -> Reply,
                                   parseDate: string -> int)
    requires "0" in documentCheckTypes
    ensures InvalidIdDocumentCheck("200436652", "0", documentCheckTypes, service, parseDate).request
            == Some(Request("200436652", documentCheckTypes["0"]))
  {
    DocCommentExampleHasFormat();
  }
}
