/** What PostgreSQL's `to_char` reads in a template, by its own keywords, and
    when the format the template is lowered onto answers the same. */
module ToChar {
  import opened Wrappers
  import opened Text
  import opened Templates

  // ---------------------------------------------------------------------
  // PostgreSQL's reading
  // ---------------------------------------------------------------------

  /** The keywords starting with `c`, one that begins another after it: the
      template patterns for date and time formatting, section 9.8 of the
      PostgreSQL documentation. */
  function Keywords(c: char): seq<string> {
    match c
    case 'A' => ["A.D.", "A.M.", "AD", "AM"]
    case 'B' => ["B.C.", "BC"]
    case 'C' => ["CC"]
    case 'D' => ["DAY", "DDD", "DD", "DY", "Day", "Dy", "D"]
    case 'F' => ["FF1", "FF2", "FF3", "FF4", "FF5", "FF6", "FX"]
    case 'H' => ["HH24", "HH12", "HH"]
    case 'I' => ["IDDD", "ID", "IW", "IYYY", "IYY", "IY", "I"]
    case 'J' => ["J"]
    case 'M' => ["MI", "MM", "MONTH", "MON", "MS", "Month", "Mon"]
    case 'O' => ["OF"]
    case 'P' => ["P.M.", "PM"]
    case 'Q' => ["Q"]
    case 'R' => ["RM"]
    case 'S' => ["SSSSS", "SSSS", "SS"]
    case 'T' => ["TZH", "TZM", "TZ"]
    case 'U' => ["US"]
    case 'W' => ["WW", "W"]
    case 'Y' => ["Y,YYY", "YYYY", "YYY", "YY", "Y"]
    case 'a' => ["a.d.", "a.m.", "ad", "am"]
    case 'b' => ["b.c.", "bc"]
    case 'c' => ["cc"]
    case 'd' => ["day", "ddd", "dd", "dy", "d"]
    case 'f' => ["ff1", "ff2", "ff3", "ff4", "ff5", "ff6", "fx"]
    case 'h' => ["hh24", "hh12", "hh"]
    case 'i' => ["iddd", "id", "iw", "iyyy", "iyy", "iy", "i"]
    case 'j' => ["j"]
    case 'm' => ["mi", "mm", "month", "mon", "ms"]
    case 'o' => ["of"]
    case 'p' => ["p.m.", "pm"]
    case 'q' => ["q"]
    case 'r' => ["rm"]
    case 's' => ["sssss", "ssss", "ss"]
    case 't' => ["tzh", "tzm", "tz"]
    case 'u' => ["us"]
    case 'w' => ["ww", "w"]
    case 'y' => ["y,yyy", "yyyy", "yyy", "yy", "y"]
    case _ => []
  }

  /** The first of `words` from `i` on that `text` starts with. */
  function FirstOf(words: seq<string>, text: string, i: nat): (r: Option<string>)
    requires i <= |words|
    ensures r.Some? ==> r.value != "" && StartsWith(text, r.value)
    decreases |words| - i
  {
    if i == |words| then None
    else if words[i] != "" && StartsWith(text, words[i]) then Some(words[i])
    else FirstOf(words, text, i + 1)
  }

  function Keyword(text: string): (r: Option<string>)
    ensures r.Some? ==> r.value != "" && StartsWith(text, r.value)
  {
    if |text| == 0 then None else FirstOf(Keywords(text[0]), text, 0)
  }

  /** The modifier written before a keyword. */
  function Prefix(text: string): (r: string)
    ensures r <= text
  {
    if StartsWith(text, "FM") then "FM" else if StartsWith(text, "fm") then "fm"
    else if StartsWith(text, "TM") then "TM" else if StartsWith(text, "tm") then "tm" else ""
  }

  /** The modifier written after one. */
  function Suffix(text: string): (r: string)
    ensures r <= text
  {
    if StartsWith(text, "TH") then "TH" else if StartsWith(text, "th") then "th"
      else if StartsWith(text, "SP") then "SP" else ""
  }

  /** Text up to the closing quote, a backslash escaping the next character,
      and how much of `s` that takes. */
  function QuotedRun(s: string): (r: (string, nat))
    ensures r.1 <= |s|
  {
    if |s| == 0 then ("", 0)
    else if s[0] == '"' then ("", 1)
    else if s[0] == '\\' && |s| > 1 then
      var (run, taken) := QuotedRun(s[2..]);
      ([s[1]] + run, taken + 2)
    else
      var (run, taken) := QuotedRun(s[1..]);
      ([s[0]] + run, taken + 1)
  }

  /** HH is another spelling of HH12. */
  function Named(keyword: string): string {
    if keyword == "HH" then "HH12" else keyword
  }

  predicate EscapesQuote(text: string) {
    StartsWith(text, "\\\"")
  }

  /** What the front of a template answers, and how much of it that is. A field
      is any text at all for each keyword, its modifiers written around it. */
  function Answer(template: string, field: string -> string): (r: (string, nat))
    requires |template| > 0
    ensures 0 < r.1 <= |template|
  {
    if template[0] == '"' then
      var (run, taken) := QuotedRun(template[1..]);
      (run, taken + 1)
    else if EscapesQuote(template) then ("\"", 2)
    else
      var prefix := Prefix(template);
      var rest := template[|prefix|..];
      match Keyword(rest)
      case Some(keyword) =>
        var suffix := Suffix(rest[|keyword|..]);
        (field(prefix + Named(keyword) + suffix), |prefix| + |keyword| + |suffix|)
      case None =>
        if prefix == "" then (template[..1], 1)
        else if |rest| == 0 || rest[0] == '"' || EscapesQuote(rest) then ("", |prefix|)
        else (rest[..1], |prefix| + 1)
  }

  /** `to_char`. */
  function ToChar(template: string, field: string -> string): string
    decreases |template|
  {
    if |template| == 0 then ""
    else
      var (text, taken) := Answer(template, field);
      text + ToChar(template[taken..], field)
  }

  // ---------------------------------------------------------------------
  // SQLite's reading of the same fields
  // ---------------------------------------------------------------------

  /** The keyword for the field a `strftime` specifier answers. */
  function SpecifierName(c: char): Option<string> {
    match c
    case 'Y' => Some("YYYY")
    case 'G' => Some("IYYY")
    case 'V' => Some("IW")
    case 'u' => Some("ID")
    case 'H' => Some("HH24")
    case 'I' => Some("HH12")
    case 'm' => Some("MM")
    case 'd' => Some("DD")
    case 'M' => Some("MI")
    case 'S' => Some("SS")
    case _ => None
  }

  function Specified(field: string -> string): char -> Option<string> {
    (c: char) => match SpecifierName(c) case Some(name) => Some(field(name)) case None => None
  }

  // ---------------------------------------------------------------------
  // Where the readings part
  // ---------------------------------------------------------------------

  /** Three Ds or three Ss in a row outside quotes. */
  predicate HasTriple(template: string)
    decreases |template|
  {
    |template| > 0 &&
      if template[0] == '"' then
        match Find(template[1..], '"') case None => false case Some(end) => HasTriple(template[1..][end + 1..])
      else StartsWith(template, "DDD") || StartsWith(template, "SSS") || HasTriple(template[1..])
  }

  /** Code `i` runs on into a longer keyword. */
  predicate RunsOn(i: nat, left: string) {
    |left| > 0 && (((i == 3 || i == 7) && left[0] == 'D') || (i == 10 && left[0] == 'S'))
  }

  lemma TwoChars(text: string, a: char, b: char)
    ensures StartsWith(text, [a, b]) <==> |text| > 1 && text[0] == a && text[1] == b
  {
    if |text| > 1 && text[0] == a && text[1] == b {
      assert text[..2] == [a, b];
    }
  }

  /** What a piece of an accepted template starts with. */
  lemma PieceStart(template: string)
    requires |template| > 0 && ReadPiece(template).Ok?
    ensures template[0] == '"'
         || (|template| > 1 && exists i ::
               0 <= i < |CODES| && template[0] == CODES[i].0[0] && template[1] == CODES[i].0[1])
         || (template[0] in SEPARATORS && (template[0] == 'T' ==> BareTIsLiteral(template)))
  {
    hide Find, Doubled, FirstCode, BareTIsLiteral;
    if template[0] != '"' && FirstCode(template, 0).Some? {
      var i := FirstCode(template, 0).value;
      CodesAreLong(i);
      assert template[0] == CODES[i].0[0] && template[1] == CODES[i].0[1];
    }
  }

  lemma SeparatorsAreOthers(c: char)
    ensures c in SEPARATORS ==> c !in "tFfZ\\DSYIHM\""
    ensures 'T' in SEPARATORS
  {
  }

  lemma CodeStarts(i: nat)
    requires i < |CODES|
    ensures |CODES[i].0| >= 2 && CODES[i].0[0] in "YIHMDS"
    ensures CODES[i].0[0] == 'D' ==> CODES[i].0[1] == 'D'
    ensures CODES[i].0[0] == 'S' ==> CODES[i].0[1] == 'S'
  {
  }

  /** How an accepted template can start. */
  lemma AcceptedStart(template: string)
    requires ToStrftime(template).Ok? && |template| > 0
    ensures Suffix(template) == "" && Prefix(template) == ""
    ensures template[0] != 'Z' && template[0] != '\\'
    ensures template[0] == 'D' || template[0] == 'S' ==> |template| > 1 && template[1] == template[0]
  {
    hide ReadPiece, ToStrftime, Suffix, Prefix, StartsWith;
    PieceIsOk(template);
    PieceStart(template);
    SeparatorsAreOthers(template[0]);
    if i :| 0 <= i < |CODES| && |template| > 1 && template[0] == CODES[i].0[0] && template[1] == CODES[i].0[1] {
      CodeStarts(i);
    }
    NoModifiers(template);
  }

  lemma NoModifiers(template: string)
    requires |template| > 0 && template[0] !in "tFf"
    requires template[0] == 'T' ==> BareTIsLiteral(template)
    requires template[0] == 'S' ==> |template| > 1 && template[1] == 'S'
    ensures Suffix(template) == "" && Prefix(template) == ""
  {
    hide StartsWith;
    TwoChars(template, 'T', 'H');
    TwoChars(template, 't', 'h');
    TwoChars(template, 'S', 'P');
    TwoChars(template, 'F', 'M');
    TwoChars(template, 'f', 'm');
    TwoChars(template, 'T', 'M');
    TwoChars(template, 't', 'm');
  }

  lemma PieceIsOk(template: string)
    requires ToStrftime(template).Ok? && |template| > 0
    ensures ReadPiece(template).Ok? && ToStrftime(ReadPiece(template).value.1).Ok?
    ensures ToStrftime(template) == Ok(ReadPiece(template).value.0 + ToStrftime(ReadPiece(template).value.1).value)
  {
    hide ReadPiece;
  }

  // ---------------------------------------------------------------------
  // One piece, read both ways
  // ---------------------------------------------------------------------

  lemma FirstOfIs(words: seq<string>, text: string, i: nat, k: nat)
    requires i <= k < |words| && words[k] != "" && StartsWith(text, words[k])
    requires forall j :: i <= j < k ==> !StartsWith(text, words[j])
    ensures FirstOf(words, text, i) == Some(words[k])
    decreases k - i
  {
    if i < k {
      FirstOfIs(words, text, i + 1, k);
    }
  }

  /** A longer word is there exactly when what it adds is. */
  lemma LongerWord(code: string, left: string, more: string)
    ensures StartsWith(code + left, code + more) <==> StartsWith(left, more)
  {
    if StartsWith(left, more) {
      assert left == more + left[|more|..];
      assert code + left == code + more + left[|more|..];
    }
    if StartsWith(code + left, code + more) {
      assert |more| <= |left|;
      forall k | 0 <= k < |more| ensures left[k] == more[k] {
        assert (code + left)[|code| + k] == (code + more)[|code| + k];
      }
      assert left[..|more|] == more;
    }
  }

  lemma OneChar(left: string, c: char)
    ensures StartsWith(left, [c]) <==> |left| > 0 && left[0] == c
  {
    if |left| > 0 && left[0] == c {
      assert left[..1] == [c];
    }
  }

  /** The keyword PostgreSQL reads where the scanner reads a code it does not
      run on from. */
  lemma KeywordIsCode(i: nat, left: string)
    requires i < |CODES| && !RunsOn(i, left)
    requires i == 8 ==> !StartsWith("HH" + left, "HH24") && !StartsWith("HH" + left, "HH12")
    ensures Keyword(CODES[i].0 + left) == Some(CODES[i].0)
  {
    var code := CODES[i].0;
    var text := code + left;
    CodesAreLong(i);
    assert text[..|code|] == code;
    if i == 0 || i == 1 || i == 2 {
      YearKeyword(i, left);
    } else if i == 3 || i == 7 || i == 10 {
      RepeatingKeyword(i, left);
    } else if i == 4 || i == 5 || i == 8 {
      HourKeyword(i, left);
    } else {
      MinuteKeyword(i, left);
    }
  }

  lemma YearKeyword(i: nat, left: string)
    requires i == 0 || i == 1 || i == 2
    ensures Keyword(CODES[i].0 + left) == Some(CODES[i].0)
  {
    var code := CODES[i].0;
    var text := code + left;
    assert text[..|code|] == code;
    var words := Keywords(code[0]);
    var k := if i == 0 then 1 else if i == 1 then 3 else 2;
    assert words[k] == code;
    forall j | 0 <= j < k ensures !StartsWith(text, words[j]) {
      assert code[1] != words[j][1];
      ClashPersists(code, left, words[j]);
    }
    FirstOfIs(words, text, 0, k);
  }

  lemma MinuteKeyword(i: nat, left: string)
    requires i == 6 || i == 9
    ensures Keyword(CODES[i].0 + left) == Some(CODES[i].0)
  {
    var code := CODES[i].0;
    var text := code + left;
    assert text[..|code|] == code;
    var words := Keywords('M');
    var k := if i == 9 then 0 else 1;
    assert words[k] == code;
    if i == 6 {
      assert code[1] != words[0][1];
      ClashPersists(code, left, words[0]);
    }
    FirstOfIs(words, text, 0, k);
  }

  lemma HourKeyword(i: nat, left: string)
    requires i == 4 || i == 5 || i == 8
    requires i == 8 ==> !StartsWith("HH" + left, "HH24") && !StartsWith("HH" + left, "HH12")
    ensures Keyword(CODES[i].0 + left) == Some(CODES[i].0)
  {
    var code := CODES[i].0;
    var text := code + left;
    assert text[..|code|] == code;
    var words := Keywords('H');
    var k := if i == 4 then 0 else if i == 5 then 1 else 2;
    assert words[k] == code;
    if i == 5 {
      assert code[2] != words[0][2];
      ClashPersists(code, left, words[0]);
    }
    FirstOfIs(words, text, 0, k);
  }

  lemma RepeatingKeyword(i: nat, left: string)
    requires (i == 3 || i == 7 || i == 10) && !RunsOn(i, left)
    ensures Keyword(CODES[i].0 + left) == Some(CODES[i].0)
  {
    var code := CODES[i].0;
    var text := code + left;
    assert text[..|code|] == code;
    var words := Keywords(code[0]);
    OneChar(left, 'D');
    if i == 3 {
      LongerWord("ID", left, "DD");
      assert "ID" + "DD" == "IDDD";
      FirstOfIs(words, text, 0, 1);
    } else if i == 7 {
      assert code[1] != words[0][1];
      ClashPersists(code, left, words[0]);
      LongerWord("DD", left, "D");
      assert "DD" + "D" == "DDD";
      FirstOfIs(words, text, 0, 2);
    } else {
      LongerWord("SS", left, "SS");
      LongerWord("SS", left, "SSS");
      assert "SS" + "SS" == "SSSS" && "SS" + "SSS" == "SSSSS";
      FirstOfIs(words, text, 0, 2);
    }
  }

  /** Where a code runs on, PostgreSQL reads a longer keyword. */
  lemma KeywordIsLonger(i: nat, left: string)
    requires i < |CODES| && RunsOn(i, left) && |left| > 1 && left[1] == left[0]
    ensures Keyword(CODES[i].0 + left).Some? && IsLonger(Keyword(CODES[i].0 + left).value)
  {
    var code := CODES[i].0;
    var text := code + left;
    var words := Keywords(code[0]);
    TwoChars(left, left[0], left[0]);
    OneChar(left, 'D');
    if i == 3 {
      LongerWord("ID", left, "DD");
      assert "ID" + "DD" == "IDDD";
      FirstOfIs(words, text, 0, 0);
    } else if i == 7 {
      assert code[1] != words[0][1];
      ClashPersists(code, left, words[0]);
      LongerWord("DD", left, "D");
      assert "DD" + "D" == "DDD";
      FirstOfIs(words, text, 0, 1);
    } else {
      LongerWord("SS", left, "SS");
      assert "SS" + "SS" == "SSSS";
      if StartsWith(text, "SSSSS") {
        FirstOfIs(words, text, 0, 0);
      } else {
        FirstOfIs(words, text, 0, 1);
      }
    }
  }

  /** The keywords that count a day of the year or the seconds of a day. */
  predicate IsLonger(keyword: string) {
    keyword == "DDD" || keyword == "IDDD" || keyword == "SSSS" || keyword == "SSSSS"
  }

  lemma NothingFollows()
    ensures Suffix("") == "" && !HasTriple("") && ToStrftime("") == Ok("")
  {
  }

  lemma SuffixIsNone(left: string)
    requires ToStrftime(left).Ok?
    ensures Suffix(left) == ""
  {
    hide Suffix, ToStrftime;
    NothingFollows();
    if |left| > 0 {
      AcceptedStart(left);
    }
  }

  /** The code `i` an accepted template starts with, and what follows it. */
  ghost predicate StartsWithCode(template: string, i: nat, left: string) {
    && i < |CODES| && template == CODES[i].0 + left && ToStrftime(template).Ok? && ToStrftime(left).Ok?
    && (i == 8 ==> !StartsWith(template, "HH24") && !StartsWith(template, "HH12"))
  }

  lemma NoEscape(template: string)
    requires |template| > 0 && template[0] != '\\'
    ensures !EscapesQuote(template)
  {
    TwoChars(template, '\\', '"');
  }

  /** The text of a longer keyword's field, whatever modifier follows it. */
  ghost predicate AnswersLonger(text: string, field: string -> string) {
    exists k, suffix :: IsLonger(k) && text == field(k + suffix)
  }

  lemma KeywordFits(text: string)
    requires Keyword(text).Some?
    ensures |Keyword(text).value| <= |text|
  {
    hide FirstOf, Keywords;
  }

  lemma CodeAnswers(template: string, i: nat, left: string, field: string -> string)
    requires StartsWithCode(template, i, left) && |template| > 0
    ensures template[0] != '"'
    ensures !RunsOn(i, left) ==> Answer(template, field) == (field(Named(CODES[i].0)), |CODES[i].0|)
    ensures RunsOn(i, left) ==> AnswersLonger(Answer(template, field).0, field)
  {
    hide Keyword, Prefix, Suffix, EscapesQuote, ToStrftime, StartsWith;
    var code := CODES[i].0;
    CodesAreLong(i);
    assert template[0] == code[0];
    AcceptedStart(template);
    NoEscape(template);
    assert template[0..] == template && template[|code|..] == left;
    if RunsOn(i, left) {
      AcceptedStart(left);
      KeywordIsLonger(i, left);
      var k := Keyword(template).value;
      KeywordFits(template);
      assert "" + Named(k) + Suffix(template[|k|..]) == k + Suffix(template[|k|..]);
    } else {
      KeywordIsCode(i, left);
      SuffixIsNone(left);
      assert "" + Named(code) + "" == Named(code);
    }
  }

  lemma SeparatorAnswers(template: string, field: string -> string)
    requires ToStrftime(template).Ok? && |template| > 0 && template[0] in SEPARATORS
        && ReadPiece(template) == Ok((template[..1], template[1..]))
    ensures Answer(template, field) == (template[..1], 1)
  {
    hide Suffix, EscapesQuote, ToStrftime, ReadPiece, Keyword;
    AcceptedStart(template);
    NoEscape(template);
    SeparatorsAreOthers(template[0]);
    PieceIsOk(template);
    assert template[0..] == template;
    if |template| > 1 {
      assert template[1..][0] == template[1];
      AcceptedStart(template[1..]);
    }
    NoKeyword(template);
  }

  lemma NoKeyword(template: string)
    requires |template| > 0 && template[0] in SEPARATORS && (|template| > 1 ==> template[1] != 'Z')
    ensures Keyword(template) == None
  {
    hide StartsWith;
    if template[0] == 'T' {
      TwoChars(template, 'T', 'Z');
      LongerIsThere(template, "TZ", "H");
      LongerIsThere(template, "TZ", "M");
      assert "TZ" + "H" == "TZH" && "TZ" + "M" == "TZM";
      var words := Keywords('T');
      assert !StartsWith(template, words[0]) && !StartsWith(template, words[1]) && !StartsWith(template, words[2]);
      assert FirstOf(words, template, 2) == None;
      assert FirstOf(words, template, 1) == None;
    } else {
      NoKeywords(template[0]);
    }
  }

  lemma LongerIsThere(text: string, a: string, b: string)
    ensures StartsWith(text, a + b) ==> StartsWith(text, a)
  {
    if StartsWith(text, a + b) {
      assert text[..|a|] == (a + b)[..|a|] == a;
    }
  }

  lemma NoKeywords(c: char)
    requires c in SEPARATORS && c != 'T'
    ensures Keywords(c) == []
  {
    SeparatorsListed(c);
    match c
    case '-' =>
    case ':' =>
    case '.' =>
    case '/' =>
    case ',' =>
    case '_' =>
    case ' ' =>
  }

  lemma SeparatorsListed(c: char)
    requires c in SEPARATORS && c != 'T'
    ensures c == '-' || c == ':' || c == '.' || c == '/' || c == ',' || c == '_' || c == ' '
  {
  }

  /** A quoted run with nothing to escape is its own text. */
  lemma {:induction false} PlainRun(s: string, end: nat)
    requires end < |s| && s[end] == '"' && forall k :: 0 <= k < end ==> s[k] != '"' && s[k] != '\\'
    ensures QuotedRun(s) == (s[..end], end + 1)
  {
    if end > 0 {
      assert forall k :: 0 <= k < end - 1 ==> s[1..][k] == s[k + 1];
      PlainRun(s[1..], end - 1);
      assert [s[0]] + s[1..][..end - 1] == s[..end];
    }
  }

  lemma QuotedAnswers(template: string, field: string -> string)
    requires |template| > 0 && template[0] == '"' && ReadPiece(template).Ok?
    ensures Find(template[1..], '"').Some?
    ensures var end := Find(template[1..], '"').value;
      && ReadPiece(template) == Ok((Doubled(template[1..][..end]), template[1..][end + 1..]))
      && Answer(template, field) == (template[1..][..end], end + 2)
      && template[end + 2..] == template[1..][end + 1..]
  {
    hide Doubled, QuotedRun;
    var s, end := template[1..], Find(template[1..], '"').value;
    forall k | 0 <= k < end ensures s[k] != '\\' {
      assert s[..end][k] == s[k];
    }
    PlainRun(s, end);
  }

  // ---------------------------------------------------------------------
  // Triples
  // ---------------------------------------------------------------------

  lemma TripleAfter(c: char, left: string)
    requires c != '"'
    ensures HasTriple([c] + left) <==> StartsWith([c] + left, "DDD") || StartsWith([c] + left, "SSS") || HasTriple(left)
  {
    assert ([c] + left)[1..] == left;
  }

  lemma ThreeChars(a: char, left: string, c: char)
    ensures StartsWith([a] + left, [c, c, c]) <==> a == c && StartsWith(left, [c, c])
  {
    LongerWord([a], left, [c, c]);
    assert [a] + [c, c] == [a, c, c];
    assert ([a] + left)[0] == a && [c, c, c][0] == c;
  }

  lemma NoTripleAt(a: char, left: string)
    requires a != 'D' && a != 'S' && a != '"'
    ensures HasTriple([a] + left) <==> HasTriple(left)
  {
    TripleAfter(a, left);
    ThreeChars(a, left, 'D');
    ThreeChars(a, left, 'S');
  }

  /** Three in a row show up in a code exactly where it runs on. */
  lemma TripleInCode(i: nat, left: string)
    requires i < |CODES| && (|left| > 0 && (left[0] == 'D' || left[0] == 'S') ==> |left| > 1 && left[1] == left[0])
    ensures HasTriple(CODES[i].0 + left) <==> RunsOn(i, left) || HasTriple(left)
  {
    hide HasTriple, StartsWith;
    var code := CODES[i].0;
    if i == 7 || i == 10 {
      assert code + left == [code[0]] + ([code[1]] + left);
      TripleEnds(code[1], left);
      TripleAfter(code[0], [code[1]] + left);
      ThreeChars(code[0], [code[1]] + left, 'D');
      ThreeChars(code[0], [code[1]] + left, 'S');
      TwoChars([code[1]] + left, 'D', 'D');
      TwoChars([code[1]] + left, 'S', 'S');
    } else if i == 3 {
      assert code + left == ['I'] + (['D'] + left);
      NoTripleAt('I', ['D'] + left);
      TripleEnds('D', left);
    } else if i == 0 || i == 1 || i == 4 || i == 5 {
      assert code + left == [code[0]] + ([code[1]] + ([code[2]] + ([code[3]] + left)));
      NoTripleAt(code[3], left);
      NoTripleAt(code[2], [code[3]] + left);
      NoTripleAt(code[1], [code[2]] + ([code[3]] + left));
      NoTripleAt(code[0], [code[1]] + ([code[2]] + ([code[3]] + left)));
    } else {
      assert code + left == [code[0]] + ([code[1]] + left);
      NoTripleAt(code[1], left);
      NoTripleAt(code[0], [code[1]] + left);
    }
  }

  /** After a D or an S, what follows completes three exactly when it starts
      alike. */
  lemma TripleEnds(c: char, left: string)
    requires c == 'D' || c == 'S'
    requires |left| > 0 && (left[0] == 'D' || left[0] == 'S') ==> |left| > 1 && left[1] == left[0]
    ensures HasTriple([c] + left) <==> (|left| > 0 && left[0] == c) || HasTriple(left)
  {
    hide HasTriple, StartsWith;
    TripleAfter(c, left);
    ThreeChars(c, left, 'D');
    ThreeChars(c, left, 'S');
    TwoChars(left, c, c);
  }

  // ---------------------------------------------------------------------
  // The two answers
  // ---------------------------------------------------------------------

  /** An accepted template starts with a quoted run, a code or a separator. */
  lemma PieceKinds(template: string)
    requires ToStrftime(template).Ok? && |template| > 0 && template[0] != '"'
    ensures var (piece, left) := ReadPiece(template).value;
      match FirstCode(template, 0)
      case Some(i) => StartsWithCode(template, i, left) && piece == ['%', CODES[i].1]
      case None => template[0] in SEPARATORS && piece == template[..1] && left == template[1..]
  {
    hide Find, Doubled, ToStrftime;
    PieceIsOk(template);
    if FirstCode(template, 0).Some? {
      var i := FirstCode(template, 0).value;
      CodesAreLong(i);
      assert template == CODES[i].0 + template[|CODES[i].0|..];
      assert CODES[4].0 == "HH24" && CODES[5].0 == "HH12";
    }
  }

  lemma SpecifiersAreNamed(i: nat)
    requires i < |CODES|
    ensures CODES[i].1 != '%' && SpecifierName(CODES[i].1) == Some(Named(CODES[i].0))
  {
  }

  /** Answering a front and the rest. */
  lemma AnswerThenRest(template: string, field: string -> string)
    requires |template| > 0
    ensures ToChar(template, field) == Answer(template, field).0 + ToChar(template[Answer(template, field).1..], field)
  {
  }

  /** With no three in a row the lowered format answers what the template does. */
  lemma {:induction false} FormatAgrees(template: string, field: string -> string)
    requires ToStrftime(template).Ok? && !HasTriple(template)
    ensures Strftime(ToStrftime(template).value, Specified(field)) == Some(ToChar(template, field))
    decreases |template|
  {
    hide Strftime, Doubled, Find, FirstCode, Answer, ToStrftime, ReadPiece, ToChar, RunsOn, Specified;
    if |template| == 0 {
      NothingAnswers(Specified(field));
      NothingFollows();
      NothingRead(field);
    } else {
      PieceIsOk(template);
      var (piece, left) := ReadPiece(template).value;
      var format := ToStrftime(left).value;
      AnswerThenRest(template, field);
      PieceShrinks(template);
      if template[0] == '"' {
        QuotedAnswers(template, field);
        FormatAgrees(left, field);
        RunAnswersItself(template[1..][..Find(template[1..], '"').value], format, Specified(field));
      } else {
        PieceKinds(template);
        if FirstCode(template, 0).Some? {
          var i := FirstCode(template, 0).value;
          CodeLeaves(template, i, left);
          CodeAnswers(template, i, left, field);
          FormatAgrees(left, field);
          SpecifiersAreNamed(i);
          SpecifiedIs(CODES[i].1, field);
        } else {
          SeparatorAnswers(template, field);
          TripleStays(template);
          FormatAgrees(left, field);
          SeparatorsArePlain(template[0]);
        }
        PieceAnswers(piece, format, Specified(field));
      }
    }
  }

  lemma NothingRead(field: string -> string)
    ensures ToChar("", field) == ""
  {
  }

  lemma PieceShrinks(template: string)
    requires |template| > 0 && ReadPiece(template).Ok?
    ensures |ReadPiece(template).value.1| < |template|
  {
  }

  lemma SpecifiedIs(c: char, field: string -> string)
    requires SpecifierName(c).Some?
    ensures Specified(field)(c) == Some(field(SpecifierName(c).value))
  {
  }

  lemma SeparatorsArePlain(c: char)
    requires c in SEPARATORS
    ensures c != '%' && c != 'D' && c != 'S' && c != '"'
  {
  }

  /** A code runs on, or what follows it holds the triples. */
  lemma CodeLeaves(template: string, i: nat, left: string)
    requires StartsWithCode(template, i, left)
    ensures HasTriple(template) <==> RunsOn(i, left) || HasTriple(left)
    ensures template[|CODES[i].0|..] == left
  {
    hide ToStrftime, HasTriple, RunsOn, Suffix, Prefix;
    if |left| > 0 {
      AcceptedStart(left);
    }
    TripleInCode(i, left);
  }

  lemma TripleStays(template: string)
    requires |template| > 0 && template[0] in SEPARATORS
    ensures HasTriple(template) <==> HasTriple(template[1..])
  {
    hide HasTriple;
    SeparatorsArePlain(template[0]);
    assert [template[0]] + template[1..] == template;
    NoTripleAt(template[0], template[1..]);
  }

  lemma TripleAfterRun(template: string)
    requires |template| > 0 && template[0] == '"' && Find(template[1..], '"').Some?
    ensures HasTriple(template) <==> HasTriple(template[1..][Find(template[1..], '"').value + 1..])
  {
  }

  function Heavy(n: nat): (s: string)
    ensures |s| == n
  {
    seq(n, _ => 'x')
  }

  /** Fields that are long for the longer keywords and empty for the others. */
  function Weighted(n: nat): string -> string {
    (keyword: string) =>
      if StartsWith(keyword, "DDD") || StartsWith(keyword, "IDDD") || StartsWith(keyword, "SSSS") then Heavy(n) else ""
  }

  lemma LongerIsHeavy(text: string, n: nat)
    requires AnswersLonger(text, Weighted(n))
    ensures |text| == n
  {
    var k, suffix :| IsLonger(k) && text == Weighted(n)(k + suffix);
    assert StartsWith(k + suffix, k);
    LongerIsThere(k + suffix, "SSSS", "S");
    assert "SSSS" + "S" == "SSSSS";
    assert Weighted(n)(k + suffix) == Heavy(n);
  }

  /** A template with three in a row answers a longer keyword's field. */
  lemma {:induction false} TripleIsHeavy(template: string, n: nat)
    requires ToStrftime(template).Ok? && HasTriple(template)
    ensures |ToChar(template, Weighted(n))| >= n
    decreases |template|
  {
    hide Doubled, Find, FirstCode, Answer, ToStrftime, ReadPiece, ToChar, RunsOn, Weighted;
    PieceIsOk(template);
    PieceShrinks(template);
    var (piece, left) := ReadPiece(template).value;
    AnswerThenRest(template, Weighted(n));
    if template[0] == '"' {
      QuotedAnswers(template, Weighted(n));
      TripleAfterRun(template);
      TripleIsHeavy(left, n);
    } else {
      PieceKinds(template);
      if FirstCode(template, 0).Some? {
        var i := FirstCode(template, 0).value;
        CodeLeaves(template, i, left);
        CodeAnswers(template, i, left, Weighted(n));
        if RunsOn(i, left) {
          LongerIsHeavy(Answer(template, Weighted(n)).0, n);
        } else {
          TripleIsHeavy(left, n);
        }
      } else {
        SeparatorAnswers(template, Weighted(n));
        TripleStays(template);
        TripleIsHeavy(left, n);
      }
    }
  }

  /** No specifier's field is heavy. */
  lemma {:induction false} FormatIsLight(format: string, n: nat)
    ensures Strftime(format, Specified(Weighted(n))).Some? ==>
        |Strftime(format, Specified(Weighted(n))).value| <= |format|
    decreases |format|
  {
    hide Specified, Weighted;
    if |format| > 0 {
      if format[0] != '%' {
        FormatIsLight(format[1..], n);
      } else if |format| > 1 {
        SpecifierIsLight(format[1], n);
        FormatIsLight(format[2..], n);
      }
    }
  }

  lemma SpecifierIsLight(c: char, n: nat)
    ensures Specified(Weighted(n))(c).Some? ==> Specified(Weighted(n))(c).value == ""
  {
    if SpecifierName(c).Some? {
      NameIsLight(c);
      assert Weighted(n)(SpecifierName(c).value) == "";
    }
  }

  lemma NameIsLight(c: char)
    requires SpecifierName(c).Some?
    ensures var name := SpecifierName(c).value;
        !StartsWith(name, "DDD") && !StartsWith(name, "IDDD") && !StartsWith(name, "SSSS")
  {
    var name := SpecifierName(c).value;
    assert |name| == 2 || (|name| == 4 && name[0] != 'D' && name[0] != 'S' && name[1] != 'D');
  }

  /** Over all fields the lowered format answers what PostgreSQL answers exactly
      when no three Ds or Ss stand in a row outside the template's quotes. */
  lemma FormatAnswersTemplate(template: string)
    requires ToStrftime(template).Ok?
    ensures (forall field: string -> string ::
        Strftime(ToStrftime(template).value, Specified(field)) == Some(ToChar(template, field)))
       <==> !HasTriple(template)
  {
    hide Strftime, Specified, Weighted, ToChar, HasTriple, ToStrftime;
    if HasTriple(template) {
      var format := ToStrftime(template).value;
      var n := |format| + 1;
      TripleIsHeavy(template, n);
      FormatIsLight(format, n);
      assert Strftime(format, Specified(Weighted(n))) != Some(ToChar(template, Weighted(n)));
    } else {
      forall field: string -> string
        ensures Strftime(ToStrftime(template).value, Specified(field)) == Some(ToChar(template, field))
      {
        FormatAgrees(template, field);
      }
    }
  }

  /** Two specifiers in a row that spell three Ds or three Ss. */
  predicate SpellsTriple(format: string)
    decreases |format|
  {
    |format| > 0 &&
      if format[0] == '%' && |format| > 1 then PairSpellsTriple(format) || SpellsTriple(format[2..])
        else SpellsTriple(format[1..])
  }

  predicate PairSpellsTriple(format: string) {
    StartsWith(format, "%d%d") || StartsWith(format, "%u%d") || StartsWith(format, "%S%S")
  }

  lemma PairIs(format: string, c: char)
    requires |format| > 1
    ensures StartsWith(format, ['%', c, '%', c]) <==>
        format[0] == '%' && format[1] == c && StartsWith(format[2..], ['%', c])
    ensures StartsWith(format, "%u%d") <==> format[0] == '%' && format[1] == 'u' && StartsWith(format[2..], "%d")
  {
    assert format == [format[0], format[1]] + format[2..];
    LongerWord([format[0], format[1]], format[2..], ['%', c]);
    LongerWord([format[0], format[1]], format[2..], "%d");
    assert ['%', c] + ['%', c] == ['%', c, '%', c] && "%u" + "%d" == "%u%d";
    TwoChars(format, '%', c);
    TwoChars(format, '%', 'u');
    LongerIsThere(format, ['%', c], ['%', c]);
    LongerIsThere(format, "%u", "%d");
  }

  /** What the spelling of a format starts with. */
  lemma SpelledStart(format: string)
    requires ToTemplate(format).Some?
    ensures var template := ToTemplate(format).value;
      && (|template| > 0 && template[0] == 'D' <==> StartsWith(format, "%d"))
      && (|template| > 0 && template[0] == 'S' <==> StartsWith(format, "%S"))
  {
    hide FirstSpecifier;
    TwoChars(format, '%', 'd');
    TwoChars(format, '%', 'S');
    if |format| > 0 {
      var (spelling, taken) := SpellPiece(format).value;
      assert ToTemplate(format).value[..|spelling|] == spelling;
      if format[0] == '%' {
        var i := FirstSpecifier(format[1], 0).value;
        CodesAreLong(i);
        assert ToTemplate(format).value[0] == CODES[i].0[0];
        SpecifierLetters(i);
      } else if format[0] != 'T' {
        SeparatorsArePlain(format[0]);
      }
    }
  }

  lemma SpecifierLetters(i: nat)
    requires i < |CODES|
    ensures CODES[i].0[0] == 'D' <==> CODES[i].1 == 'd'
    ensures CODES[i].0[0] == 'S' <==> CODES[i].1 == 'S'
    ensures i == 7 <==> CODES[i].1 == 'd'
    ensures i == 3 <==> CODES[i].1 == 'u'
    ensures i == 10 <==> CODES[i].1 == 'S'
    ensures |CODES[i].0| > 0
  {
  }

  lemma {:induction false} TriplesAreSpelled(format: string)
    requires ToTemplate(format).Some?
    ensures HasTriple(ToTemplate(format).value) <==> SpellsTriple(format)
    decreases |format|
  {
    hide FirstSpecifier, HasTriple, StartsWith, ToStrftime;
    if |format| == 0 {
      NothingFollows();
    } else {
      var (spelling, taken) := SpellPiece(format).value;
      var rest := format[taken..];
      var left := ToTemplate(rest).value;
      TriplesAreSpelled(rest);
      assert ToTemplate(format) == Some(spelling + left);
      if format[0] == '%' {
        var i := FirstSpecifier(format[1], 0).value;
        TemplateReadsBack(rest);
        if |left| > 0 {
          AcceptedStart(left);
        }
        TripleInCode(i, left);
        SpecifierLetters(i);
        SpelledStart(rest);
        PairIs(format, 'd');
        PairIs(format, 'S');
      } else if format[0] == 'T' {
        QuotedTHides(left);
      } else {
        assert spelling == [format[0]];
        SeparatorsArePlain(format[0]);
        NoTripleAt(format[0], left);
      }
    }
  }

  lemma QuotedTHides(left: string)
    ensures HasTriple("\"T\"" + left) <==> HasTriple(left)
  {
    hide Find;
    var text := "\"T\"" + left;
    assert text[1..] == "T" + ['"'] + left;
    assert !Contains("T", '"');
    FindAt("T", '"', left);
    assert text[1..][2..] == left;
  }

  /** The other direction inherits it: a format's template answers the format
      exactly when no two specifiers in a row spell a longer keyword. */
  lemma TemplateAnswersFormat(format: string)
    requires ToTemplate(format).Some?
    ensures (forall field: string -> string ::
        Strftime(format, Specified(field)) == Some(ToChar(ToTemplate(format).value, field)))
       <==> !SpellsTriple(format)
  {
    hide Strftime, Specified, ToChar, HasTriple, ToStrftime, ToTemplate, SpellsTriple;
    TemplateReadsBack(format);
    FormatAnswersTemplate(ToTemplate(format).value);
    TriplesAreSpelled(format);
  }

  /** The smallest such template: seconds of the day, lowered as seconds twice,
      and spelled back for seconds twice. */
  lemma SecondsOfDay(field: string -> string)
    ensures ToStrftime("SSSS") == Ok("%S%S") && ToTemplate("%S%S") == Some("SSSS") && HasTriple("SSSS")
    ensures ToChar("SSSS", field) == field("SSSS")
    ensures Strftime("%S%S", Specified(field)) == Some(field("SS") + field("SS"))
  {
    hide Answer, ReadPiece, FirstSpecifier, Strftime, Keyword;
    TwoSeconds();
    SpellSeconds();
    ReadSeconds(field);
    AnswerThenRest("SSSS", field);
    NothingRead(field);
    assert field("SSSS") + "" == field("SSSS");
    SpecifiedIs('S', field);
    NothingAnswers(Specified(field));
    PieceAnswers("%S", "", Specified(field));
    PieceAnswers("%S", "%S", Specified(field));
    assert "%S" + "" == "%S" && "%S" + "%S" == "%S%S" && field("SS") + "" == field("SS");
  }

  lemma TwoSeconds()
    ensures ToStrftime("SSSS") == Ok("%S%S") && HasTriple("SSSS")
  {
    hide ReadPiece;
    CodeReads(10, "SS");
    CodeReads(10, "");
    assert "SS" + "SS" == "SSSS" && "SS" + "" == "SS" && "%S" + ("%S" + "") == "%S%S" && ['%', 'S'] == "%S";
    assert ToStrftime("") == Ok("");
    assert ToStrftime("SS") == Ok("%S" + "");
    assert "SSS" <= "SSSS";
  }

  lemma SpellSeconds()
    ensures ToTemplate("%S%S") == Some("SSSS")
  {
    hide FirstSpecifier;
    OnlySeconds();
    assert "%S%S"[2..] == "%S" && "%S"[2..] == "" && "SS" + ("SS" + "") == "SSSS";
    assert ToTemplate("") == Some("");
    assert ToTemplate("%S") == Some("SS" + "");
  }

  lemma OnlySeconds()
    ensures FirstSpecifier('S', 0) == Some(10)
  {
    assert forall i :: 0 <= i < 10 ==> CODES[i].1 != 'S';
  }

  lemma ReadSeconds(field: string -> string)
    ensures Answer("SSSS", field) == (field("SSSS"), 4)
  {
    var words := Keywords('S');
    assert !StartsWith("SSSS", words[0]) && StartsWith("SSSS", words[1]);
    FirstOfIs(words, "SSSS", 0, 1);
    NoModifiers("SSSS");
    NoEscape("SSSS");
    NothingFollows();
    assert "SSSS"[0..] == "SSSS" && "SSSS"[4..] == "" && "" + "SSSS" + "" == "SSSS";
  }
}
