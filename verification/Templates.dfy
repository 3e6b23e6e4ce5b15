/** Date and time templates: PostgreSQL's `to_char` spelling, SQLite's
    `strftime` spelling, and the scanners between them. */
module Templates {
  import opened Wrappers
  import opened Text

  datatype Refusal = Unterminated | Backslash | TwoDigitYear | FractionalSeconds | BareT | Unsupported(c: char)

  /** The `to_char` codes, each with the specifier after the `%`. */
  const CODES: seq<(string, char)> := [
    ("YYYY", 'Y'), ("IYYY", 'G'), ("IW", 'V'), ("ID", 'u'), ("HH24", 'H'), ("HH12", 'I'),
    ("MM", 'm'), ("DD", 'd'), ("HH", 'I'), ("MI", 'M'), ("SS", 'S')
  ]

  const SEPARATORS := "-:./,_ T"

  // ---------------------------------------------------------------------
  // The scanners, as functions
  // ---------------------------------------------------------------------

  /** The first code from `i` on that `rest` starts with. */
  function FirstCode(rest: string, i: nat): (r: Option<nat>)
    requires i <= |CODES|
    ensures r.Some? ==> i <= r.value < |CODES| && StartsWith(rest, CODES[r.value].0)
    ensures forall j :: i <= j < |CODES| && (r.Some? ==> j < r.value) ==> !StartsWith(rest, CODES[j].0)
    decreases |CODES| - i
  {
    if i == |CODES| then None else if StartsWith(rest, CODES[i].0) then Some(i) else FirstCode(rest, i + 1)
  }

  /** The first code from `i` on written `%spec`. */
  function FirstSpecifier(spec: char, i: nat): (r: Option<nat>)
    requires i <= |CODES|
    ensures r.Some? ==> i <= r.value < |CODES| && CODES[r.value].1 == spec
    ensures forall j :: i <= j < |CODES| && (r.Some? ==> j < r.value) ==> CODES[j].1 != spec
    decreases |CODES| - i
  {
    if i == |CODES| then None else if CODES[i].1 == spec then Some(i) else FirstSpecifier(spec, i + 1)
  }

  /** Text with every percent sign doubled. */
  function Doubled(literal: string): string {
    if |literal| == 0 then "" else (if literal[0] == '%' then "%%" else [literal[0]]) + Doubled(literal[1..])
  }

  /** A T stands for itself unless H or M follows. */
  predicate BareTIsLiteral(rest: string) {
    !(|rest| > 1 && (rest[1] == 'H' || rest[1] == 'M'))
  }

  /** What the template `rest` starts with becomes, and what is left of it. */
  function ReadPiece(rest: string): (r: Result<(string, string), Refusal>)
    requires |rest| > 0
    ensures r.Ok? ==> |r.value.1| < |rest|
  {
    if rest[0] == '"' then
      match Find(rest[1..], '"')
      case None => Err(Unterminated)
      case Some(end) =>
        var run := rest[1..][..end];
        if Contains(run, '\\') then Err(Backslash) else Ok((Doubled(run), rest[1..][end + 1..]))
    else
      match FirstCode(rest, 0)
      case Some(i) => assert |CODES[i].0| > 0 by { CodesAreLong(i); } Ok((['%', CODES[i].1], rest[|CODES[i].0|..]))
      case None =>
        if StartsWith(rest, "YY") then Err(TwoDigitYear)
        else if StartsWith(rest, "MS") || StartsWith(rest, "US") then Err(FractionalSeconds)
        else if rest[0] == 'T' && !BareTIsLiteral(rest) then Err(BareT)
        else if rest[0] !in SEPARATORS then Err(Unsupported(rest[0]))
        else Ok((rest[..1], rest[1..]))
  }

  function ToStrftime(template: string): Result<string, Refusal>
    decreases |template|
  {
    if |template| == 0 then Ok("")
    else
      var piece :- ReadPiece(template);
      var rest :- ToStrftime(piece.1);
      Ok(piece.0 + rest)
  }

  /** What the character or specifier a format starts with is spelled as, and
      how many characters it takes. */
  function SpellPiece(format: string): (r: Option<(string, nat)>)
    requires |format| > 0
    ensures r.Some? ==> 0 < r.value.1 <= |format|
  {
    if format[0] == '%' then
      if |format| < 2 || format[1] == 'y' then None
      else match FirstSpecifier(format[1], 0) case None => None case Some(i) => Some((CODES[i].0, 2))
    else if format[0] == 'T' then Some(("\"T\"", 1))
    else if format[0] in SEPARATORS then Some((format[..1], 1))
    else None
  }

  function ToTemplate(format: string): Option<string>
    decreases |format|
  {
    if |format| == 0 then Some("")
    else
      match SpellPiece(format)
      case None => None
      case Some((spelling, taken)) =>
        match ToTemplate(format[taken..]) case None => None case Some(rest) => Some(spelling + rest)
  }

  // ---------------------------------------------------------------------
  // The scanners, as loops
  // ---------------------------------------------------------------------

  lemma DoubledGrows(a: string, c: char)
    ensures Doubled(a + [c]) == Doubled(a) + if c == '%' then "%%" else [c]
  {
    if |a| > 0 {
      assert (a + [c])[1..] == a[1..] + [c];
      DoubledGrows(a[1..], c);
    } else {
      assert (a + [c])[1..] == "";
    }
  }

  method PushQuotedLiteral(before: string, literal: string) returns (r: Result<string, Refusal>)
    ensures r == if Contains(literal, '\\') then Err(Backslash) else Ok(before + Doubled(literal))
  {
    if Contains(literal, '\\') {
      return Err(Backslash);
    }
    var result := before;
    for i := 0 to |literal|
      invariant result == before + Doubled(literal[..i])
    {
      assert literal[..i + 1] == literal[..i] + [literal[i]];
      DoubledGrows(literal[..i], literal[i]);
      if literal[i] == '%' {
        result := result + "%%";
      } else {
        result := result + [literal[i]];
      }
    }
    assert literal[..|literal|] == literal;
    r := Ok(result);
  }

  /** How the answer for what is left extends the text scanned so far. */
  function Continued(before: string, rest: Result<string, Refusal>): Result<string, Refusal> {
    match rest case Err(e) => Err(e) case Ok(text) => Ok(before + text)
  }

  lemma ContinuedFromStart(rest: Result<string, Refusal>)
    ensures Continued("", rest) == rest
  {
    if rest.Ok? {
      assert "" + rest.value == rest.value;
    }
  }

  /** Scanning one piece moves it from what is left to what is scanned. */
  lemma ContinuedByPiece(before: string, rest: string)
    requires |rest| > 0
    ensures ReadPiece(rest).Err? ==> Continued(before, ToStrftime(rest)) == Err(ReadPiece(rest).error)
    ensures ReadPiece(rest).Ok? ==>
      Continued(before, ToStrftime(rest))
        == Continued(before + ReadPiece(rest).value.0, ToStrftime(ReadPiece(rest).value.1))
  {
    hide ReadPiece;
    if ReadPiece(rest).Ok? && ToStrftime(ReadPiece(rest).value.1).Ok? {
      var (piece, left) := ReadPiece(rest).value;
      var text := ToStrftime(left).value;
      assert before + (piece + text) == (before + piece) + text;
    }
  }

  /** Lowers a `to_char` template onto a `strftime` format. */
  method PgToCharFormatToStrftime(template: string) returns (r: Result<string, Refusal>)
    ensures r == ToStrftime(template)
  {
    hide ToStrftime, Continued, Doubled, FirstCode, Find;
    var result, rest := "", template;
    ContinuedFromStart(ToStrftime(rest));
    while |rest| > 0
      invariant ToStrftime(template) == Continued(result, ToStrftime(rest))
      decreases |rest|
    {
      ContinuedByPiece(result, rest);
      if rest[0] == '"' {
        var afterQuote := rest[1..];
        var end := Find(afterQuote, '"');
        if end.None? {
          return Err(Unterminated);
        }
        var pushed := PushQuotedLiteral(result, afterQuote[..end.value]);
        if pushed.Err? {
          return Err(pushed.error);
        }
        assert ReadPiece(rest) == Ok((Doubled(afterQuote[..end.value]), afterQuote[end.value + 1..]));
        result, rest := pushed.value, afterQuote[end.value + 1..];
        continue;
      }
      var code := FirstCode(rest, 0);
      if code.Some? {
        CodesAreLong(code.value);
        result, rest := result + ['%', CODES[code.value].1], rest[|CODES[code.value].0|..];
        continue;
      }
      if StartsWith(rest, "YY") {
        return Err(TwoDigitYear);
      }
      if StartsWith(rest, "MS") || StartsWith(rest, "US") {
        return Err(FractionalSeconds);
      }
      if rest[0] == 'T' && !BareTIsLiteral(rest) {
        return Err(BareT);
      }
      if rest[0] !in SEPARATORS {
        return Err(Unsupported(rest[0]));
      }
      result, rest := result + rest[..1], rest[1..];
    }
    NothingLeft(result);
    r := Ok(result);
  }

  lemma NothingLeft(result: string)
    ensures Continued(result, ToStrftime("")) == Ok(result)
  {
    assert result + "" == result;
  }

  function Extended(before: string, rest: Option<string>): Option<string> {
    match rest case None => None case Some(text) => Some(before + text)
  }

  lemma ExtendedByPiece(before: string, rest: string)
    ensures |rest| == 0 ==> Extended(before, ToTemplate(rest)) == Some(before)
    ensures |rest| > 0 && SpellPiece(rest).None? ==> Extended(before, ToTemplate(rest)) == None
    ensures |rest| > 0 && SpellPiece(rest).Some? ==>
      Extended(before, ToTemplate(rest))
        == Extended(before + SpellPiece(rest).value.0, ToTemplate(rest[SpellPiece(rest).value.1..]))
  {
    hide SpellPiece;
    if |rest| == 0 {
      assert before + "" == before;
    } else if SpellPiece(rest).Some? && ToTemplate(rest[SpellPiece(rest).value.1..]).Some? {
      var (piece, taken) := SpellPiece(rest).value;
      var text := ToTemplate(rest[taken..]).value;
      assert before + (piece + text) == (before + piece) + text;
    }
  }

  lemma ExtendedFromStart(rest: Option<string>)
    ensures Extended("", rest) == rest
  {
    if rest.Some? {
      assert "" + rest.value == rest.value;
    }
  }

  /** The template that answers what a `strftime` format answers, when it has one. */
  method StrftimeFormatToPgToChar(format: string) returns (r: Option<string>)
    ensures r == ToTemplate(format)
  {
    hide ToTemplate, Extended, FirstSpecifier;
    var template, next := "", 0;
    assert format[0..] == format;
    ExtendedFromStart(ToTemplate(format));
    while next < |format|
      invariant next <= |format|
      invariant ToTemplate(format) == Extended(template, ToTemplate(format[next..]))
    {
      var c := format[next];
      var left := format[next..];
      ExtendedByPiece(template, left);
      assert left[0] == c && left[..1] == [c] && left[1..] == format[next + 1..];
      if c == '%' {
        if next + 1 == |format| || format[next + 1] == 'y' {
          return None;
        }
        var code := FirstSpecifier(format[next + 1], 0);
        if code.None? {
          return None;
        }
        assert left[1] == format[next + 1] && left[2..] == format[next + 2..];
        template, next := template + CODES[code.value].0, next + 2;
      } else if c == 'T' {
        template, next := template + "\"T\"", next + 1;
      } else if c in SEPARATORS {
        template, next := template + [c], next + 1;
      } else {
        return None;
      }
    }
    ExtendedByPiece(template, format[next..]);
    r := Some(template);
  }

  // ---------------------------------------------------------------------
  // Reading back
  // ---------------------------------------------------------------------

  /** Neither text continues the other. */
  predicate Clash(a: string, b: string) {
    exists k :: 0 <= k < |a| && k < |b| && a[k] != b[k]
  }

  lemma CodesAreLong(i: nat)
    requires i < |CODES|
    ensures |CODES[i].0| >= 2 && forall k :: 0 <= k < |CODES[i].0| ==> CODES[i].0[k] != '"'
  {
  }

  /** One character alone is accepted exactly when it is a separator, which it then
      stays. */
  lemma SeparatorsAre(c: char)
    ensures ToStrftime([c]) == Ok([c]) <==> c in {'-', ':', '.', '/', ',', '_', ' ', 'T'}
    ensures ToStrftime([c]).Ok? ==> ToStrftime([c]) == Ok([c])
  {
    hide Doubled;
    forall i | 0 <= i < |CODES| ensures !StartsWith([c], CODES[i].0) {
      CodesAreLong(i);
    }
    assert [c][1..] == "" && [c][..1] == [c] && [c] + "" == [c];
    assert c == '"' ==> Find("", '"').None?;
  }

  /** Every code but the bare HH clashes with each one listed before it. */
  lemma CodesClash(i: nat, j: nat)
    requires j < i < |CODES| && i != 8
    ensures Clash(CODES[i].0, CODES[j].0)
  {
    var a, b := CODES[i].0, CODES[j].0;
    assert a[0] != b[0] || a[1] != b[1] || (|a| > 2 && |b| > 2 && a[2] != b[2]);
  }

  lemma FirstIsNeverBareHour(spec: char)
    ensures FirstSpecifier(spec, 0) != Some(8)
  {
    assert CODES[5].1 == CODES[8].1;
  }

  /** A code reads back as itself, whatever follows it. */
  lemma CodeReads(i: nat, rest: string)
    requires i < |CODES| && i != 8
    ensures ReadPiece(CODES[i].0 + rest) == Ok((['%', CODES[i].1], rest))
  {
    hide Find, Doubled, Contains;
    var code := CODES[i].0;
    var text := code + rest;
    CodesAreLong(i);
    assert StartsWith(text, code) by { assert text[..|code|] == code; }
    forall j | 0 <= j < i ensures !StartsWith(text, CODES[j].0) {
      CodesClash(i, j);
      ClashPersists(code, rest, CODES[j].0);
    }
    assert FirstCode(text, 0) == Some(i);
    assert text[|code|..] == rest;
  }

  lemma ClashPersists(a: string, rest: string, b: string)
    requires Clash(a, b)
    ensures !StartsWith(a + rest, b)
  {
    var k :| 0 <= k < |a| && k < |b| && a[k] != b[k];
    assert (a + rest)[k] == a[k];
  }

  lemma QuotedTReads(rest: string)
    ensures ReadPiece("\"T\"" + rest) == Ok(("T", rest))
  {
    var text := "\"T\"" + rest;
    assert text[1..] == "T" + ['"'] + rest;
    assert !Contains("T", '"');
    FindAt("T", '"', rest);
    assert text[1..][..1] == "T" && text[1..][2..] == rest;
    assert "T"[1..] == "";
    assert Doubled("T") == "T";
  }

  lemma SeparatorReads(c: char, rest: string)
    requires c in SEPARATORS && c != 'T'
    ensures ReadPiece([c] + rest) == Ok(([c], rest))
  {
    hide Find, Doubled, Contains;
    var text := [c] + rest;
    forall j | 0 <= j < |CODES| ensures !StartsWith(text, CODES[j].0) {
      CodesAreLong(j);
      CodeStartsWithLetter(j);
      assert Clash([c], CODES[j].0) by { assert [c][0] != CODES[j].0[0]; }
      ClashPersists([c], rest, CODES[j].0);
    }
    assert Clash([c], "YY") && Clash([c], "MS")
      && Clash([c], "US") by { assert [c][0] != "YY"[0] && [c][0] != "MS"[0] && [c][0] != "US"[0]; }
    ClashPersists([c], rest, "YY");
    ClashPersists([c], rest, "MS");
    ClashPersists([c], rest, "US");
    assert text[..1] == [c] && text[1..] == rest;
  }

  lemma CodeStartsWithLetter(j: nat)
    requires j < |CODES|
    ensures |CODES[j].0| > 0 && CODES[j].0[0] !in SEPARATORS
  {
  }

  /** A template spelled for a format reads back as exactly that format. */
  lemma {:induction false} TemplateReadsBack(format: string)
    requires ToTemplate(format).Some?
    ensures ToStrftime(ToTemplate(format).value) == Ok(format)
    decreases |format|
  {
    hide FirstSpecifier, FirstCode, ReadPiece;
    if |format| > 0 {
      var (spelling, taken) := SpellPiece(format).value;
      var rest := ToTemplate(format[taken..]).value;
      TemplateReadsBack(format[taken..]);
      assert ToTemplate(format) == Some(spelling + rest);
      assert ReadPiece(spelling + rest) == Ok((format[..taken], rest)) by {
        if format[0] == '%' {
          var i := FirstSpecifier(format[1], 0).value;
          FirstIsNeverBareHour(format[1]);
          CodeReads(i, rest);
          assert format[..2] == ['%', format[1]];
        } else if format[0] == 'T' {
          QuotedTReads(rest);
          assert format[..1] == "T";
        } else {
          assert format[..1] == [format[0]];
          SeparatorReads(format[0], rest);
        }
      }
      assert format == format[..taken] + format[taken..];
    }
  }

  /** Which formats have a template: those of known specifiers and separators,
      with no `%` left over. */
  ghost predicate HasTemplate(format: string)
    decreases |format|
  {
    |format| > 0 ==>
      if format[0] == '%' then |format| > 1 && (exists i :: 0 <= i < |CODES| && CODES[i].1 == format[1])
        && HasTemplate(format[2..])
      else format[0] in SEPARATORS && HasTemplate(format[1..])
  }

  lemma {:induction false} TemplateExists(format: string)
    ensures ToTemplate(format).Some? <==> HasTemplate(format)
    decreases |format|
  {
    if |format| > 0 {
      if format[0] == '%' {
        if |format| > 1 {
          TemplateExists(format[2..]);
          assert forall i :: 0 <= i < |CODES| ==> CODES[i].1 != 'y';
        }
      } else {
        TemplateExists(format[1..]);
      }
    }
  }

  // ---------------------------------------------------------------------
  // What SQLite answers
  // ---------------------------------------------------------------------

  /** `strftime`: text as it stands, `%%` a percent sign, a specifier its
      field, none for a specifier SQLite does not know. */
  function Strftime(format: string, field: char -> Option<string>): Option<string>
    decreases |format|
  {
    if |format| == 0 then Some("")
    else if format[0] != '%' then
      match Strftime(format[1..], field) case Some(rest) => Some([format[0]] + rest) case None => None
    else if |format| == 1 then None
    else
      match (if format[1] == '%' then Some("%") else field(format[1]), Strftime(format[2..], field))
      case (Some(text), Some(rest)) => Some(text + rest)
      case (_, _) => None
  }

  /** A quoted run answers its own text, percent signs included. */
  lemma {:induction false} RunAnswersItself(run: string, after: string, field: char -> Option<string>)
    ensures Strftime(Doubled(run) + after, field)
         == match Strftime(after, field) case Some(rest) => Some(run + rest) case None => None
  {
    if |run| == 0 {
      assert Doubled(run) + after == after;
      assert forall rest: string :: run + rest == rest;
    } else {
      var first := if run[0] == '%' then "%%" else [run[0]];
      var tail := Doubled(run[1..]) + after;
      RunAnswersItself(run[1..], after, field);
      assert Doubled(run) + after == first + tail;
      FirstAnswersItself(run[0], tail, field);
      if Strftime(after, field).Some? {
        var rest := Strftime(after, field).value;
        assert [run[0]] + (run[1..] + rest) == run + rest;
      }
    }
  }

  lemma FirstAnswersItself(c: char, tail: string, field: char -> Option<string>)
    ensures var first := if c == '%' then "%%" else [c];
            Strftime(first + tail, field) == match Strftime(tail, field)
              case Some(rest) => Some([c] + rest)
              case None => None
  {
    var first := if c == '%' then "%%" else [c];
    assert (first + tail)[|first|..] == tail;
  }

  function Followed(first: Option<string>, rest: Option<string>): Option<string> {
    if first.Some? && rest.Some? then Some(first.value + rest.value) else None
  }

  lemma PieceAnswers(text: string, after: string, field: char -> Option<string>)
    ensures |text| == 2 && text[0] == '%' && text[1] != '%' ==>
        Strftime(text + after, field) == Followed(field(text[1]), Strftime(after, field))
    ensures |text| == 1 && text[0] != '%' ==>
        Strftime(text + after, field) == Followed(Some(text), Strftime(after, field))
  {
    assert (text + after)[|text|..] == after;
    if |text| == 1 {
      assert [text[0]] == text;
    }
  }

  lemma NothingAnswers(field: char -> Option<string>)
    ensures Strftime("", field) == Some("")
  {
  }

}
