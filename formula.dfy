/**
 * The formula parser: splits `=NAME(ARG)` into an upper-cased function name
 * and a trimmed argument, checking the shape in a fixed order and reporting
 * the first check that fails.
 */
module Formula {
  import opened Wrappers
  import opened Text

  /** A parsed formula: the function name, upper-cased, and the argument text, trimmed. */
  datatype Call = Call(name: string, arg: string)

  /** Why a formula was refused, one kind per check, in the order the checks run. */
  datatype FormulaError =
    | NullFormula           // the formula pointer is null
    | InvalidEncoding       // the formula bytes are not UTF-8
    | MissingLeadingEquals  // the trimmed formula does not start with '='
    | ExpectedFunctionCall  // there is no '(' after the '='
    | MissingClosingParen   // there is a '(' but the formula does not end with ')'
    | ResultNotCString      // "NAME:arg" holds a NUL character; no formula the host passes does (NulFreeBuildsResult)

  /** The text handed back to the host for each kind of error. */
  function Message(e: FormulaError): string
  {
    match e
    case NullFormula => "Null formula string"
    case InvalidEncoding => "Invalid formula encoding"
    case MissingLeadingEquals => "Formula must start with '='"
    // One message, split in two only so that MessageShape can reason about its short first part.
    case ExpectedFunctionCall => "Invalid formula syntax: " + "expected function(arg)"
    case MissingClosingParen => "Formula missing closing parenthesis"
    case ResultNotCString => "Failed to create result string"
  }

  /** The "NAME:arg" text handed back to the host for a parsed formula. */
  function Joined(c: Call): string
  {
    c.name + ":" + c.arg
  }

  /**
   * Parses a formula. The checks run in this order and the first that fails
   * decides the error: null, encoding, leading '=', an opening '(', a final ')'.
   */
  function ParseFormula(formula: RawText): Result<Call, FormulaError>
  {
    match formula
    case NullPtr => Failure(NullFormula)
    case BadUtf8 => Failure(InvalidEncoding)
    case Utf8(text) => ParseTrimmed(Trim(text))
  }

  /** The checks on the trimmed formula `f`: a leading '=', then the trimmed body after it. */
  function ParseTrimmed(f: string): Result<Call, FormulaError>
  {
    if !StartsWithEquals(f) then Failure(MissingLeadingEquals) else ParseBody(Trim(f[1..]))
  }

  /**
   * The checks on the body after '=': a first '(' and a final ')'. Only those two
   * delimit the argument; any other parenthesis is part of the argument text.
   */
  function ParseBody(body: string): Result<Call, FormulaError>
  {
    match IndexOf(body, '(')
    case None => Failure(ExpectedFunctionCall)
    case Some(open) =>
      if body[|body| - 1] != ')' then Failure(MissingClosingParen)
      else
        Build(Call(ToUpper(Trim(body[..open])), Trim(body[open + 1..|body| - 1])))
  }

  /** Turning "NAME:arg" into a C string fails exactly when it holds a NUL character. */
  function Build(c: Call): Result<Call, FormulaError>
  {
    if '\0' in Joined(c) then Failure(ResultNotCString) else Success(c)
  }

  /** The string the parse entry point returns: "NAME:arg" on success, the error's message otherwise. */
  function Output(formula: RawText): string
  {
    match ParseFormula(formula)
    case Success(c) => Joined(c)
    case Failure(e) => Message(e)
  }

  predicate StartsWithEquals(f: string)
  {
    f != [] && f[0] == '='
  }

  /** `f` is exactly '=' NAME '(' ARG ')' where NAME holds no '('. */
  predicate IsCallShape(f: string, name: string, arg: string)
  {
    '(' !in name && f == "=" + name + "(" + arg + ")"
  }

  /** The body decides between the two syntax errors by its first '(' and its last character. */
  lemma BodyOutcome(body: string)
    ensures ParseBody(body) == Failure(ExpectedFunctionCall) <==> '(' !in body
    ensures ParseBody(body) == Failure(MissingClosingParen) <==> '(' in body && body[|body| - 1] != ')'
    ensures ParseBody(body) != Failure(MissingLeadingEquals)
  {
  }

  /** Past the '=' check, the outcome is the body's. */
  lemma TrimmedOutcome(f: string)
    ensures !StartsWithEquals(f) ==> ParseTrimmed(f) == Failure(MissingLeadingEquals)
    ensures StartsWithEquals(f) ==> ParseTrimmed(f) == ParseBody(Trim(f[1..]))
  {
  }

  /** A trimmed formula that does not start with '=' is refused for that reason, and for no other. */
  lemma MissingEqualsIff(text: string)
    ensures ParseFormula(Utf8(text)) == Failure(MissingLeadingEquals) <==> !StartsWithEquals(Trim(text))
  {
    var f := Trim(text);
    TrimmedOutcome(f);
    if StartsWithEquals(f) {
      BodyOutcome(Trim(f[1..]));
    }
  }

  /** A formula with '=' but no '(' anywhere is refused as bad syntax, even when it ends with ')'. */
  lemma ExpectedCallIff(text: string)
    ensures ParseFormula(Utf8(text)) == Failure(ExpectedFunctionCall)
      <==> StartsWithEquals(Trim(text)) && '(' !in text
  {
    var f := Trim(text);
    TrimmedOutcome(f);
    TrimKeepsNonWhitespace(text, '(');
    if StartsWithEquals(f) {
      var g := f[1..];
      TrimKeepsNonWhitespace(g, '(');
      BodyOutcome(Trim(g));
      assert f == [f[0]] + g;
    }
  }

  /** A formula with '=' and a '(' that does not end with ')' is refused for the missing ')'. */
  lemma MissingCloseIff(text: string)
    ensures ParseFormula(Utf8(text)) == Failure(MissingClosingParen)
      <==> StartsWithEquals(Trim(text)) && '(' in text && Trim(text)[|Trim(text)| - 1] != ')'
  {
    var f := Trim(text);
    TrimmedOutcome(f);
    TrimKeepsNonWhitespace(text, '(');
    if StartsWithEquals(f) {
      var g := f[1..];
      TrimKeepsNonWhitespace(g, '(');
      BodyOutcome(Trim(g));
      assert f == [f[0]] + g;
      if '(' in g {
        TrimEnds(text);
        TrimKeepsLast(g);
      }
    }
  }

  /** Upper-casing and joining add no NUL character. */
  lemma JoinedNulFree(name: string, arg: string)
    requires '\0' !in name && '\0' !in arg
    ensures '\0' !in Joined(Call(ToUpper(name), arg))
  {
  }

  /** A body without NUL characters never fails when its result string is built. */
  lemma BodyNulFree(body: string)
    requires '\0' !in body
    ensures ParseBody(body) != Failure(ResultNotCString)
  {
    match IndexOf(body, '(')
    case None =>
    case Some(open) =>
      if body[|body| - 1] == ')' {
        var rawName, rawArg := body[..open], body[open + 1..|body| - 1];
        assert '\0' !in rawName && '\0' !in rawArg;
        TrimKeepsNonWhitespace(rawName, '\0');
        TrimKeepsNonWhitespace(rawArg, '\0');
        JoinedNulFree(Trim(rawName), Trim(rawArg));
      }
  }

  /** A formula without NUL characters never fails when its result string is built. */
  lemma NulFreeBuildsResult(text: string)
    requires '\0' !in text
    ensures ParseFormula(Utf8(text)) != Failure(ResultNotCString)
  {
    var f := Trim(text);
    TrimmedOutcome(f);
    TrimKeepsNonWhitespace(text, '\0');
    if StartsWithEquals(f) {
      TrimKeepsNonWhitespace(f[1..], '\0');
      assert '\0' !in f[1..] by { assert f == [f[0]] + f[1..]; }
      BodyNulFree(Trim(f[1..]));
    }
  }

  /** A body NAME '(' ARG ')' whose NAME holds no '(' splits at the '(' after NAME and at the final ')'. */
  lemma BodyCallShape(body: string, n: string, a: string)
    requires '(' !in n && body == n + "(" + a + ")" && '\0' !in body
    ensures ParseBody(body) == Success(Call(ToUpper(Trim(n)), Trim(a)))
  {
    assert body[..|n|] == n;
    assert body[|n|] == '(';
    var open := IndexOf(body, '(');
    assert open == Some(|n|);
    assert body[|n| + 1..|body| - 1] == a;
    BodyNulFree(body);
  }

  /**
   * Every formula of the shape '=' NAME '(' ARG ')' parses, whatever ARG holds
   * (further parentheses included, or nothing at all), to the upper-cased
   * trimmed NAME and the trimmed ARG.
   */
  lemma ParseCallShape(text: string, n: string, a: string)
    requires IsCallShape(Trim(text), n, a) && '\0' !in n && '\0' !in a
    ensures ParseFormula(Utf8(text)) == Success(Call(ToUpper(Trim(n)), Trim(a)))
  {
    var f := Trim(text);
    var g := f[1..];
    var tail := "(" + a + ")";
    var n' := TrimStart(n);
    var body := n' + tail;
    assert Trim(g) == body by {
      assert g == n + tail;
      TrimStartKeepsTail(n, tail);
      assert body[|body| - 1] == ')';
      assert TrimEnd(body) == body;
    }
    assert '(' !in n' by {
      TrimStartAddsNothing(n, '(');
    }
    assert Trim(n') == Trim(n) by {
      TrimAfterTrimStart(n);
    }
    assert '\0' !in body by {
      TrimStartAddsNothing(n, '\0');
    }
    BodyCallShape(body, n', a);
    TrimmedOutcome(f);
  }

  /** Surrounding whitespace does not matter: a padded '=' NAME '(' ARG ')' parses as above. */
  lemma ParsePaddedCall(pre: string, n: string, a: string, post: string)
    requires AllWhitespace(pre) && AllWhitespace(post) && '(' !in n
    requires '\0' !in n && '\0' !in a
    ensures ParseFormula(Utf8(pre + "=" + n + "(" + a + ")" + post))
      == Success(Call(ToUpper(Trim(n)), Trim(a)))
  {
    var core := "=" + n + "(" + a + ")";
    var text := pre + "=" + n + "(" + a + ")" + post;
    assert text == pre + core + post;
    TrimOfPadded(pre, core, post);
    ParseCallShape(text, n, a);
  }

  /** '=' then some whitespace then NAME '(' ARG ')' is a call shape whose NAME carries the whitespace in front. */
  lemma ReassembleCall(f: string, w: string, body: string, open: nat)
    requires f == "=" + w + body && AllWhitespace(w)
    requires open + 1 < |body| && '(' !in body[..open] && body[open] == '(' && body[|body| - 1] == ')'
    ensures IsCallShape(f, w + body[..open], body[open + 1..|body| - 1])
  {
    var n, a := w + body[..open], body[open + 1..|body| - 1];
    assert body == body[..open] + "(" + a + ")";
    assert f == "=" + n + "(" + a + ")";
  }

  /** A trimmed formula is '=' followed by the whitespace that the body's trim removed, then the body. */
  lemma SplitAfterEquals(text: string) returns (w: string)
    requires StartsWithEquals(Trim(text)) && Trim(Trim(text)[1..]) != []
    ensures AllWhitespace(w) && Trim(text) == "=" + w + Trim(Trim(text)[1..])
  {
    var f := Trim(text);
    var g := f[1..];
    var t := TrimStart(g);
    w := g[..|g| - |t|];
    TrimStartIsSuffix(g);
    TrimEnds(text);
    assert t[|t| - 1] == f[|f| - 1];
    assert Trim(g) == t;
    assert f == [f[0]] + g;
    assert g == w + t;
  }

  /** Conversely, a formula parses only if it has the shape '=' NAME '(' ARG ')', and then to NAME and ARG. */
  lemma ParseSuccessHasCallShape(text: string) returns (n: string, a: string)
    requires ParseFormula(Utf8(text)).Success?
    ensures IsCallShape(Trim(text), n, a)
    ensures ParseFormula(Utf8(text)).value == Call(ToUpper(Trim(n)), Trim(a))
  {
    var f := Trim(text);
    TrimmedOutcome(f);
    var body := Trim(f[1..]);
    assert '(' in body && body[|body| - 1] == ')' by {
      BodyOutcome(body);
    }
    var open := IndexOf(body, '(').value;
    assert ParseFormula(Utf8(text)) == Build(Call(ToUpper(Trim(body[..open])), Trim(body[open + 1..|body| - 1])));
    var w := SplitAfterEquals(text);
    n, a := w + body[..open], body[open + 1..|body| - 1];
    ReassembleCall(f, w, body, open);
    TrimSkipsLeadingWhitespace(w, body[..open]);
  }

  /** A parsed name holds no lower-case ASCII letter, a parsed argument has no surrounding whitespace. */
  lemma ParsedCallIsNormalised(formula: RawText)
    requires ParseFormula(formula).Success?
    ensures Trim(ParseFormula(formula).value.arg) == ParseFormula(formula).value.arg
    ensures forall k :: 0 <= k < |ParseFormula(formula).value.name| ==>
      !('a' <= ParseFormula(formula).value.name[k] <= 'z')
  {
    var f := Trim(formula.text);
    TrimmedOutcome(f);
    var body := Trim(f[1..]);
    BodyOutcome(body);
    var open := IndexOf(body, '(').value;
    var arg := body[open + 1..|body| - 1];
    assert ParseBody(body) == Build(Call(ToUpper(Trim(body[..open])), Trim(arg)));
    TrimIdempotent(arg);
  }

  /** Starts like a sentence: not with ':', and with a lower-case second letter. */
  predicate SentenceLike(m: string)
  {
    |m| >= 2 && 'a' <= m[1] <= 'z' && m[0] != ':'
  }

  /** Every error message is at least two characters long, has a lower-case second letter and does not start with ':'. */
  lemma MessageShape(e: FormulaError)
    ensures SentenceLike(Message(e))
  {
    match e
    case NullFormula => assert SentenceLike("Null formula string");
    case InvalidEncoding => assert SentenceLike("Invalid formula encoding");
    case MissingLeadingEquals => assert SentenceLike("Formula must start with '='");
    case ExpectedFunctionCall =>
      assert SentenceLike("Invalid formula syntax: ");
      assert Message(e)[..2] == "Invalid formula syntax: "[..2];
    case MissingClosingParen => assert SentenceLike("Formula missing closing parenthesis");
    case ResultNotCString => assert SentenceLike("Failed to create result string");
  }

  /**
   * The host cannot mistake a parsed formula for an error: no "NAME:arg"
   * output equals any error message, because NAME is upper-cased while every
   * message has a lower-case second letter.
   */
  lemma SuccessIsNeverAnErrorMessage(formula: RawText, e: FormulaError)
    requires ParseFormula(formula).Success?
    ensures Output(formula) != Message(e)
  {
    var m := Message(e);
    MessageShape(e);
    var c := ParseFormula(formula).value;
    ParsedCallIsNormalised(formula);
    var out := Joined(c);
    assert Output(formula) == out;
    if |c.name| == 0 {
      assert out[0] == ':';
    } else if |c.name| == 1 {
      assert out[1] == ':';
    } else {
      assert out[1] == c.name[1];
    }
  }

  /** On success the host receives "NAME:arg". */
  lemma OutputOfSuccess(formula: RawText, c: Call)
    requires ParseFormula(formula) == Success(c)
    ensures Output(formula) == Joined(c)
  {
  }

  /** On failure the host receives the error's message. */
  lemma OutputOfFailure(formula: RawText, e: FormulaError)
    requires ParseFormula(formula) == Failure(e)
    ensures Output(formula) == Message(e)
  {
  }

  /** The output for '=' NAME '(' ARG ')': the upper-cased trimmed NAME, a colon, the trimmed ARG. */
  lemma OutputOfCall(text: string, n: string, a: string)
    requires IsCallShape(Trim(text), n, a) && '\0' !in n && '\0' !in a
    ensures Output(Utf8(text)) == ToUpper(Trim(n)) + ":" + Trim(a)
  {
    ParseCallShape(text, n, a);
    OutputOfSuccess(Utf8(text), Call(ToUpper(Trim(n)), Trim(a)));
  }

  /**
   * Function names are case-insensitive: two calls on the same argument whose
   * names differ only in the case of their letters parse to the same call.
   */
  lemma NameCaseIgnored(text1: string, n1: string, text2: string, n2: string, a: string)
    requires IsCallShape(Trim(text1), n1, a) && IsCallShape(Trim(text2), n2, a)
    requires EqualIgnoringCase(n1, n2)
    requires '\0' !in n1 && '\0' !in n2 && '\0' !in a
    ensures ParseFormula(Utf8(text1)) == ParseFormula(Utf8(text2))
    ensures Output(Utf8(text1)) == Output(Utf8(text2))
  {
    ParseCallShape(text1, n1, a);
    ParseCallShape(text2, n2, a);
    TrimIgnoresCase(n1, n2);
    ToUpperIgnoresCase(Trim(n1), Trim(n2));
  }

  // The examples below fix their input as a literal through `requires`, and
  // the facts about each literal are kept in a lemma of their own (the
  // *Pieces lemmas), apart from the parser's general lemmas. This only keeps
  // the proofs cheap: the verifier unfolds a literal string character by
  // character, and doing that in the same proof as the general lemmas costs
  // many times more.

  lemma SumColumnAPieces(text: string, n: string, a: string)
    requires text == "=SUM(ColumnA)" && n == "SUM" && a == "ColumnA"
    ensures IsCallShape(Trim(text), n, a) && '\0' !in n && '\0' !in a
    ensures ToUpper(Trim(n)) == n && Trim(a) == a && Joined(Call(n, a)) == "SUM:ColumnA"
  {
    TrimOfTrimmed(text);
    TrimOfTrimmed(n);
    TrimOfTrimmed(a);
  }

  /** The source's own test: "=SUM(ColumnA)" gives "SUM:ColumnA". */
  lemma ExampleSumColumnA(text: string)
    requires text == "=SUM(ColumnA)"
    ensures Output(Utf8(text)) == "SUM:ColumnA"
  {
    var n, a := "SUM", "ColumnA";
    SumColumnAPieces(text, n, a);
    ParseCallShape(text, n, a);
    OutputOfSuccess(Utf8(text), Call(n, a));
  }

  lemma LowerCaseSpacedPieces(text: string, pre: string, n: string, a: string)
    requires text == "  =sum ( ColumnA )  " && pre == "  " && n == "sum " && a == " ColumnA "
    ensures text == pre + "=" + n + "(" + a + ")" + pre
    ensures AllWhitespace(pre) && '(' !in n && '\0' !in n && '\0' !in a
  {
  }

  lemma SumNamePieces(n: string)
    requires n == "sum "
    ensures ToUpper(Trim(n)) == "SUM"
  {
    TrimOfPadded([], "sum", " ");
    assert [] + "sum" + " " == n;
    assert ToUpper("sum") == "SUM";
  }

  lemma SpacedArgPieces(a: string)
    requires a == " ColumnA "
    ensures Trim(a) == "ColumnA" && Joined(Call("SUM", "ColumnA")) == "SUM:ColumnA"
  {
    TrimOfPadded(" ", "ColumnA", " ");
    assert " " + "ColumnA" + " " == a;
  }

  /** Case and spacing of the name do not matter; spacing around the argument is dropped. */
  lemma ExampleLowerCaseSpaced(text: string)
    requires text == "  =sum ( ColumnA )  "
    ensures Output(Utf8(text)) == "SUM:ColumnA"
  {
    var pre, n, a := "  ", "sum ", " ColumnA ";
    LowerCaseSpacedPieces(text, pre, n, a);
    SumNamePieces(n);
    SpacedArgPieces(a);
    ParsePaddedCall(pre, n, a, pre);
    OutputOfSuccess(Utf8(text), Call("SUM", "ColumnA"));
  }

  lemma NestedPieces(text: string, n: string, a: string)
    requires text == "=SUM((A) (B))" && n == "SUM" && a == "(A) (B)"
    ensures IsCallShape(Trim(text), n, a) && '\0' !in n && '\0' !in a
    ensures ToUpper(Trim(n)) == n && Trim(a) == a && Joined(Call(n, a)) == "SUM:(A) (B)"
  {
    TrimOfTrimmed(text);
    TrimOfTrimmed(n);
    TrimOfTrimmed(a);
  }

  /** Inner parentheses stay in the argument verbatim. */
  lemma ExampleNested(text: string)
    requires text == "=SUM((A) (B))"
    ensures Output(Utf8(text)) == "SUM:(A) (B)"
  {
    var n, a := "SUM", "(A) (B)";
    NestedPieces(text, n, a);
    ParseCallShape(text, n, a);
    OutputOfSuccess(Utf8(text), Call(n, a));
  }

  lemma EmptyArgPieces(text: string, n: string)
    requires text == "=Avg()" && n == "Avg"
    ensures IsCallShape(Trim(text), n, "") && '\0' !in n
    ensures ToUpper(Trim(n)) == "AVG" && Joined(Call("AVG", "")) == "AVG:"
  {
    TrimOfTrimmed(text);
    TrimOfTrimmed(n);
  }

  /** The argument may be empty, and the name is upper-cased. */
  lemma ExampleEmptyArg(text: string)
    requires text == "=Avg()"
    ensures Output(Utf8(text)) == "AVG:"
  {
    var n := "Avg";
    EmptyArgPieces(text, n);
    TrimOfTrimmed([]);
    ParseCallShape(text, n, []);
    OutputOfSuccess(Utf8(text), Call("AVG", []));
  }

  lemma NoEqualsPieces(text: string)
    requires text == "SUM(ColumnA)"
    ensures !StartsWithEquals(Trim(text))
    ensures Message(MissingLeadingEquals) == "Formula must start with '='"
  {
    TrimOfTrimmed(text);
  }

  /** Without '=' the formula is refused for that, whatever else it holds. */
  lemma ExampleNoEquals(text: string)
    requires text == "SUM(ColumnA)"
    ensures Output(Utf8(text)) == "Formula must start with '='"
  {
    NoEqualsPieces(text);
    MissingEqualsIff(text);
    OutputOfFailure(Utf8(text), MissingLeadingEquals);
  }

  lemma ExpectedCallMessage()
    ensures Message(ExpectedFunctionCall) == "Invalid formula syntax: expected function(arg)"
  {
  }

  lemma NoOpenPieces(text: string)
    requires text == "=SUM ColumnA)"
    ensures StartsWithEquals(Trim(text)) && '(' !in text
  {
    TrimOfTrimmed(text);
    assert text == "=SUM " + "ColumnA)";
    assert '(' !in "=SUM " && '(' !in "ColumnA)";
  }

  /** Without '(' the formula is bad syntax even though it ends with ')': the '(' check comes first. */
  lemma ExampleNoOpen(text: string)
    requires text == "=SUM ColumnA)"
    ensures Output(Utf8(text)) == "Invalid formula syntax: expected function(arg)"
  {
    NoOpenPieces(text);
    ExpectedCallMessage();
    ExpectedCallIff(text);
    OutputOfFailure(Utf8(text), ExpectedFunctionCall);
  }

  lemma NoClosePieces(text: string)
    requires text == "=SUM(ColumnA"
    ensures StartsWithEquals(Trim(text)) && '(' in text && Trim(text)[|Trim(text)| - 1] != ')'
    ensures Message(MissingClosingParen) == "Formula missing closing parenthesis"
  {
    TrimOfTrimmed(text);
    assert text[4] == '(';
  }

  /** With '(' but no final ')' the formula is refused for the missing ')'. */
  lemma ExampleNoClose(text: string)
    requires text == "=SUM(ColumnA"
    ensures Output(Utf8(text)) == "Formula missing closing parenthesis"
  {
    NoClosePieces(text);
    MissingCloseIff(text);
    OutputOfFailure(Utf8(text), MissingClosingParen);
  }
}
