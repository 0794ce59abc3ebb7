/**
 * What Yoakke's C lexer reads, as functions of the source text and the
 * cursor: the escaped character layer (backslash-newline splicing of
 * translation phase 2 and the trigraphs of section 5.2.1.1 of ISO/IEC
 * 9899:2011), escaped matching, punctuators with their digraphs, comments
 * and the logical position.
 *
 * The source's loops can run forever on some inputs. Every such loop is
 * deterministic, so it runs forever exactly when it comes back to a
 * loop-head state it has been in; the functions here carry the states seen
 * so far and report such a return as a hang.
 */
module CLexerSpec {
  import opened Wrappers
  import opened Text
  import opened Numbers

  /** The .NET character classes the lexer consults, which this model leaves abstract. */
  datatype CharClasses = CharClasses(isWhiteSpace: char -> bool, isControl: char -> bool, isDigit: char -> bool)

  /**
   * `AllowLineContinuations` and `AllowTrigraphs`, with the character
   * classes. `AllowDigraphs` is never read by the lexer, so nothing here
   * depends on it.
   */
  datatype Options = Options(lineContinuations: bool, trigraphs: bool, classes: CharClasses)

  // The lexer base: the source, read relative to a cursor.

  /** `TryPeek(i)`: whether there is a character `i` places after the cursor. */
  predicate TryPeek(src: string, cur: nat, i: nat) {
    cur + i < |src|
  }

  /** `Peek(i)`: the character `i` places after the cursor, or NUL past the end. */
  function Peek(src: string, cur: nat, i: nat): (c: char)
    ensures TryPeek(src, cur, i) ==> c == src[cur + i]
    ensures !TryPeek(src, cur, i) ==> c == '\0'
  {
    if cur + i < |src| then src[cur + i] else '\0'
  }

  /** `Matches(text, i)`: the source holds `text` from `i` places after the cursor. */
  predicate Matches(src: string, cur: nat, text: string, i: nat) {
    cur + i + |text| <= |src| && src[cur + i .. cur + i + |text|] == text
  }

  /** How many characters are left after the cursor. */
  function Room(src: string, cur: nat): nat {
    if cur <= |src| then |src| - cur else 0
  }

  /** `IsSpace`: the blanks allowed between a backslash and its newline. */
  predicate IsSpace(c: char) {
    c == ' ' || c == '\0'
  }

  /** `IsNewline`. */
  predicate IsNewline(c: char) {
    c == '\n' || c == '\r'
  }

  /** The trigraph table: what `??c` stands for, if anything. */
  function Trigraph(c: char): (r: Option<char>)
    ensures r.Some? <==> c in "=/'()!<>-"
  {
    match c
    case '=' => Some('#')
    case '/' => Some('\\')
    case '\'' => Some('^')
    case '(' => Some('[')
    case ')' => Some(']')
    case '!' => Some('|')
    case '<' => Some('{')
    case '>' => Some('}')
    case '-' => Some('~')
    case _ => None
  }

  // One pass of `TryParseEscaped`, up to its `goto begin`.

  /**
   * The first place from `i` (relative to the cursor) whose `Peek` is not a
   * blank, or None when there is none: `Peek` gives NUL past the end, which
   * counts as a blank, so the loop skipping blanks never stops.
   */
  function SpacesEnd(src: string, cur: nat, i: nat): (r: Option<nat>)
    ensures r.Some? ==> i <= r.value && TryPeek(src, cur, r.value) && !IsSpace(src[cur + r.value])
    ensures r.None? ==> forall j :: i <= j ==> IsSpace(Peek(src, cur, j))
    decreases |src| - (cur + i)
  {
    if cur + i >= |src| then None
    else if IsSpace(src[cur + i]) then SpacesEnd(src, cur, i + 1)
    else Some(i)
  }

  /** What comes after a backslash of length `backslash`: a splice up to `target`, none, or a hang. */
  datatype Splice = SpliceTo(target: nat) | NoSplice | SpliceHangs

  /**
   * After a backslash of length `backslash` at the cursor: blanks, then
   * `\r\n`, `\r` or `\n`, make a line continuation; its end is the place to
   * go on from. All of this is read relative to the cursor.
   */
  function SpliceAfter(src: string, cur: nat, backslash: nat): (r: Splice)
    ensures r.SpliceTo? ==> backslash < r.target <= Room(src, cur)
  {
    match SpacesEnd(src, cur, backslash)
    case None => SpliceHangs
    case Some(length) =>
      var newline :=
        if Matches(src, cur, "\r\n", length) then 2
        else if Matches(src, cur, "\r", length) || Matches(src, cur, "\n", length) then 1
        else 0;
      if newline > 0 then SpliceTo(length + newline) else NoSplice
  }

  /** The length of the backslash, or `??/`, that the splice check sees for the character at `offset`. */
  function BackslashLength(opts: Options, src: string, cur: nat, offset: nat): (n: nat)
    requires TryPeek(src, cur, offset)
    ensures n == 0 || n == 1 || n == 3
  {
    if src[cur + offset] == '\\' then 1
    else if opts.trigraphs && Matches(src, cur, "??/", 0) then 3
    else 0
  }

  /** What one pass of `TryParseEscaped` from `offset` does. */
  datatype Pass = PassChar(c: char, next: nat) | PassEnd | PassSplice(target: nat) | PassHangs

  function EscapePass(opts: Options, src: string, cur: nat, offset: nat): (r: Pass)
    ensures r.PassEnd? <==> !TryPeek(src, cur, offset)
    ensures r.PassChar? ==> 1 <= r.next <= Room(src, cur) + 1
  {
    if !TryPeek(src, cur, offset) then PassEnd
    else if opts.lineContinuations && BackslashLength(opts, src, cur, offset) > 0 then
      var backslash := BackslashLength(opts, src, cur, offset);
      match SpliceAfter(src, cur, backslash)
      case SpliceHangs => PassHangs
      case SpliceTo(target) => PassSplice(target)
      case NoSplice => PassChar('\\', backslash)
    else if opts.trigraphs && Matches(src, cur, "??", offset) && TryPeek(src, cur, 2)
      && Trigraph(src[cur + 2]).Some? then
      PassChar(Trigraph(src[cur + 2]).value, offset + 3)
    else PassChar(src[cur + offset], offset + 1)
  }

  /** The places a splice can lead to: one for a plain backslash, one for `??/`. */
  function SpliceTargets(src: string, cur: nat): (t: set<nat>)
    ensures forall x | x in t :: 2 <= x <= Room(src, cur)
  {
    (if SpliceAfter(src, cur, 1).SpliceTo? then {SpliceAfter(src, cur, 1).target} else {})
    + (if SpliceAfter(src, cur, 3).SpliceTo? then {SpliceAfter(src, cur, 3).target} else {})
  }

  lemma PassSpliceTarget(opts: Options, src: string, cur: nat, offset: nat)
    requires EscapePass(opts, src, cur, offset).PassSplice?
    ensures EscapePass(opts, src, cur, offset).target in SpliceTargets(src, cur)
  {
  }

  // `TryParseEscaped`.

  /** The outcome of `TryParseEscaped`: a character and where it ends, the end of input at `at`, or a hang. */
  datatype Escaped = Escaped(c: char, next: nat) | EndOfInput(at: nat) | EscapeHangs

  /**
   * `TryParseEscaped` from `offset`, having already spliced to every place
   * in `visited`: a splice back to one of them repeats the loop forever.
   */
  function EscapeFrom(opts: Options, src: string, cur: nat, offset: nat, visited: set<nat>): (r: Escaped)
    requires visited <= SpliceTargets(src, cur)
    ensures r.Escaped? ==> 1 <= r.next <= Room(src, cur) + 1 && cur < |src|
    ensures r.EndOfInput? ==> r.at == offset || r.at in SpliceTargets(src, cur)
    decreases |SpliceTargets(src, cur) - visited|
  {
    match EscapePass(opts, src, cur, offset)
    case PassEnd => EndOfInput(offset)
    case PassChar(c, next) => Escaped(c, next)
    case PassHangs => EscapeHangs
    case PassSplice(target) =>
      PassSpliceTarget(opts, src, cur, offset);
      if target in visited then EscapeHangs
      else
        assert SpliceTargets(src, cur) - (visited + {target}) < SpliceTargets(src, cur) - visited;
        EscapeFrom(opts, src, cur, target, visited + {target})
  }

  /** No backslash, or `??/`, that the splice check would see for the character at `offset`. */
  predicate NoBackslash(opts: Options, src: string, cur: nat, offset: nat)
    requires TryPeek(src, cur, offset)
  {
    !opts.lineContinuations || BackslashLength(opts, src, cur, offset) == 0
  }

  /**
   * `TryParseEscaped(out result, offset, out nextOffset)`: at the end of
   * input it fails with the offset unchanged; a `??` trigraph whose third
   * character (read at the cursor plus two) is in the table decodes to its
   * replacement over three places; a backslash without a continuation is
   * returned as `\` ending at the backslash's length; any other character
   * comes back as it is, over one place.
   */
  function TryParseEscaped(opts: Options, src: string, cur: nat, offset: nat): (r: Escaped)
    ensures r.Escaped? ==> 1 <= r.next <= Room(src, cur) + 1 && cur < |src|
    ensures r.EndOfInput? ==> 1 <= r.at <= Room(src, cur) || r.at == offset
    ensures !TryPeek(src, cur, offset) ==> r == EndOfInput(offset)
    ensures TryPeek(src, cur, offset) && NoBackslash(opts, src, cur, offset) ==>
      if opts.trigraphs && Matches(src, cur, "??", offset) && TryPeek(src, cur, 2) && Trigraph(src[cur + 2]).Some?
      then r == Escaped(Trigraph(src[cur + 2]).value, offset + 3)
      else r == Escaped(src[cur + offset], offset + 1)
    ensures TryPeek(src, cur, offset) && !NoBackslash(opts, src, cur, offset) ==>
      SpliceAfter(src, cur, BackslashLength(opts, src, cur, offset)) == NoSplice ==>
      r == Escaped('\\', BackslashLength(opts, src, cur, offset))
  {
    EscapeFrom(opts, src, cur, offset, {})
  }

  /** `ParseEscaped(offset, out nextOffset)`: the escaped character, or NUL at the end of input. */
  function ParseEscaped(opts: Options, src: string, cur: nat, offset: nat): (r: Escaped)
    ensures !r.EndOfInput?
    ensures TryParseEscaped(opts, src, cur, offset).Escaped? ==> r == TryParseEscaped(opts, src, cur, offset)
    ensures TryParseEscaped(opts, src, cur, offset).EndOfInput? ==> r == Escaped('\0', TryParseEscaped(opts, src, cur, offset).at)
    ensures TryParseEscaped(opts, src, cur, offset).EscapeHangs? <==> r.EscapeHangs?
  {
    match TryParseEscaped(opts, src, cur, offset)
    case EndOfInput(at) => Escaped('\0', at)
    case other => other
  }

  // `MatchesEscaped`.

  /**
   * The outcome of `MatchesEscaped`: matched up to `next`, or not matched
   * (the offset is then left where it was), or a hang.
   */
  datatype Matched = Matched(next: nat) | Unmatched | MatchHangs

  /** `MatchesEscaped(char ch, offset, out nextOffset)`. */
  function MatchChar(opts: Options, src: string, cur: nat, ch: char, offset: nat): (r: Matched)
    ensures r.Matched? <==> TryParseEscaped(opts, src, cur, offset).Escaped? && TryParseEscaped(opts, src, cur, offset).c == ch
    ensures r.Matched? ==> r.next == TryParseEscaped(opts, src, cur, offset).next
    ensures r.MatchHangs? <==> TryParseEscaped(opts, src, cur, offset).EscapeHangs?
  {
    match TryParseEscaped(opts, src, cur, offset)
    case Escaped(got, next) => if got == ch then Matched(next) else Unmatched
    case EndOfInput(_) => Unmatched
    case EscapeHangs => MatchHangs
  }

  /** `MatchesEscaped(string text, offset, out nextOffset)`: the characters of `text` in turn. */
  function MatchText(opts: Options, src: string, cur: nat, text: string, offset: nat): (r: Matched)
    ensures r.Matched? && offset >= 1 ==> r.next >= 1
    decreases |text|
  {
    if |text| == 0 then Matched(offset)
    else
      match MatchChar(opts, src, cur, text[0], offset)
      case Matched(next) => MatchText(opts, src, cur, text[1..], next)
      case Unmatched => Unmatched
      case MatchHangs => MatchHangs
  }

  /**
   * The first `count` escaped characters from `offset`: Some of them and
   * where they end, or None when the input ends first; a hang is a hang.
   */
  datatype Decoded = Decoded(chars: string, next: nat) | DecodedShort | DecodeHangs

  function Decode(opts: Options, src: string, cur: nat, offset: nat, count: nat): (r: Decoded)
    ensures r.Decoded? ==> |r.chars| == count
    decreases count
  {
    if count == 0 then Decoded([], offset)
    else
      match TryParseEscaped(opts, src, cur, offset)
      case EndOfInput(_) => DecodedShort
      case EscapeHangs => DecodeHangs
      case Escaped(c, next) =>
        match Decode(opts, src, cur, next, count - 1)
        case Decoded(rest, last) => Decoded([c] + rest, last)
        case DecodedShort => DecodedShort
        case DecodeHangs => DecodeHangs
  }

  /**
   * `MatchesEscaped(text)` matches exactly when the next `|text|` escaped
   * characters spell `text`; it ends where they end.
   */
  lemma {:induction false} MatchTextIsDecoding(opts: Options, src: string, cur: nat, text: string, offset: nat)
    ensures MatchText(opts, src, cur, text, offset).Matched? <==>
      (Decode(opts, src, cur, offset, |text|).Decoded? && Decode(opts, src, cur, offset, |text|).chars == text)
    ensures MatchText(opts, src, cur, text, offset).Matched? ==>
      MatchText(opts, src, cur, text, offset).next == Decode(opts, src, cur, offset, |text|).next
    decreases |text|
  {
    if |text| > 0 {
      match TryParseEscaped(opts, src, cur, offset)
      case Escaped(c, next) =>
        MatchTextIsDecoding(opts, src, cur, text[1..], next);
        if c == text[0] {
          assert text == [c] + text[1..];
        }
      case EndOfInput(_) =>
      case EscapeHangs =>
    }
  }

  // Comments.

  /** A set of naturals below `k` has at most `k` elements. */
  lemma {:induction false} BoundedSetSize(s: set<nat>, k: nat)
    requires forall x | x in s :: x < k
    ensures |s| <= k
    decreases k
  {
    if k > 0 {
      BoundedSetSize(s - {k - 1}, k - 1);
    } else {
      assert s == {};
    }
  }

  /** Where a comment loop stops, and the character it stopped on; or a hang. */
  datatype CommentEnd = CommentEnd(offset: nat, last: char) | CommentHangs

  /**
   * The line-comment loop from `offset`: escaped characters up to a newline
   * or the end of input. `visited` holds the loop-head offsets seen so far;
   * a splice can send the offset back, and coming back to one of them
   * repeats the loop forever.
   */
  function LineCommentFrom(opts: Options, src: string, cur: nat, offset: nat, visited: set<nat>): (r: CommentEnd)
    requires 1 <= offset <= Room(src, cur) + 1
    requires forall x | x in visited :: x <= Room(src, cur) + 1
    ensures r.CommentEnd? ==> 1 <= r.offset <= Room(src, cur) + 1
    decreases Room(src, cur) + 2 - |visited|
  {
    if offset in visited then CommentHangs
    else
      BoundedSetSize(visited + {offset}, Room(src, cur) + 2);
      match TryParseEscaped(opts, src, cur, offset)
      case EscapeHangs => CommentHangs
      case EndOfInput(at) => CommentEnd(at, '\0')
      case Escaped(c, next) =>
        if IsNewline(c) then CommentEnd(next, c)
        else LineCommentFrom(opts, src, cur, next, visited + {offset})
  }

  /**
   * The block-comment loop from `offset`: escaped characters up to `*` and
   * `/` or the end of input, with the loop-head offsets seen so far.
   */
  function BlockCommentFrom(opts: Options, src: string, cur: nat, offset: nat, visited: set<nat>): (r: CommentEnd)
    requires 1 <= offset <= Room(src, cur) + 1
    requires forall x | x in visited :: x <= Room(src, cur) + 1
    ensures r.CommentEnd? ==> 1 <= r.offset <= Room(src, cur) + 1
    decreases Room(src, cur) + 2 - |visited|
  {
    if offset in visited then CommentHangs
    else
      BoundedSetSize(visited + {offset}, Room(src, cur) + 2);
      match TryParseEscaped(opts, src, cur, offset)
      case EscapeHangs => CommentHangs
      case EndOfInput(at) => CommentEnd(at, '\0')
      case Escaped(c, next) =>
        if c != '*' then BlockCommentFrom(opts, src, cur, next, visited + {offset})
        else
          match MatchChar(opts, src, cur, '/', next)
          case Matched(after) => CommentEnd(after, '/')
          case MatchHangs => CommentHangs
          case Unmatched => BlockCommentFrom(opts, src, cur, next, visited + {offset})
  }

  // Punctuators.

  /** The token kinds `Next` produces. */
  datatype CTokenType =
    | End | Unknown
    | Comma | Semicolon | QuestionMark | BitNot
    | OpenParen | CloseParen | OpenBrace | CloseBrace | OpenBracket | CloseBracket
    | Colon | Dot | Ellipsis | Arrow
    | Multiply | MultiplyAssign | Divide | DivideAssign | Modulo | ModuloAssign
    | Add | AddAssign | Increment | Subtract | SubtractAssign | Decrement
    | LogicalNot | NotEqual | Assign | Equal
    | BitXor | BitXorAssign | BitOr | BitOrAssign | LogicalOr | BitAnd | BitAndAssign | LogicalAnd
    | Greater | GreaterEqual | ShiftRight | ShiftRightAssign
    | Less | LessEqual | ShiftLeft | ShiftLeftAssign
    | Hash | HashHash

  /** A way to end a punctuator: the escaped characters that must follow, the kind, the logical text. */
  datatype Choice = Choice(follow: string, kind: CTokenType, text: string)

  /** The continuations tried, in order, after the characters with more than one. */
  const PlusChoices: seq<Choice> := [Choice("+", Increment, "++"), Choice("=", AddAssign, "+=")]
  const PipeChoices: seq<Choice> := [Choice("|", LogicalOr, "||"), Choice("=", BitOrAssign, "|=")]
  const AmpChoices: seq<Choice> := [Choice("&", LogicalAnd, "&&"), Choice("=", BitAndAssign, "&=")]
  const MinusChoices: seq<Choice> := [Choice("-", Decrement, "--"), Choice(">", Arrow, "->"), Choice("=", SubtractAssign, "-=")]
  const GreaterChoices: seq<Choice> := [Choice(">=", ShiftRightAssign, ">>="), Choice(">", ShiftRight, ">>"), Choice("=", GreaterEqual, ">=")]
  const LessChoices: seq<Choice> := [Choice("<=", ShiftLeftAssign, "<<="), Choice("<", ShiftLeft, "<<"), Choice("=", LessEqual, "<="), Choice(":", OpenBracket, "<:"), Choice("%", OpenBrace, "<%")]
  const PercentChoices: seq<Choice> := [Choice(":%:", HashHash, "%:%:"), Choice(":", Hash, "%:"), Choice(">", CloseBrace, "%>"), Choice("=", ModuloAssign, "%=")]

  /**
   * The switch of `Next` for every character but `.`: the continuations it
   * tries in order, and what it makes when none matches.
   */
  function Punctuators(c: char): (r: Option<(seq<Choice>, Choice)>)
    ensures r.Some? ==> r.value.1.follow == [] && r.value.1.kind != End
    ensures r.Some? ==> forall i | 0 <= i < |r.value.0| :: r.value.0[i].kind != End
    ensures r.Some? ==> |r.value.1.text| <= 4 && forall i | 0 <= i < |r.value.0| :: |r.value.0[i].text| <= 4
  {
    match c
    case ',' => Some(([], Choice("", Comma, ",")))
    case ';' => Some(([], Choice("", Semicolon, ";")))
    case '?' => Some(([], Choice("", QuestionMark, "?")))
    case '~' => Some(([], Choice("", BitNot, "~")))
    case '(' => Some(([], Choice("", OpenParen, "(")))
    case ')' => Some(([], Choice("", CloseParen, ")")))
    case '{' => Some(([], Choice("", OpenBrace, "{")))
    case '}' => Some(([], Choice("", CloseBrace, "}")))
    case '[' => Some(([], Choice("", OpenBracket, "[")))
    case ']' => Some(([], Choice("", CloseBracket, "]")))
    case ':' => Some(([Choice(">", CloseBracket, ":>")], Choice("", Colon, ":")))
    case '*' => Some(([Choice("=", MultiplyAssign, "*=")], Choice("", Multiply, "*")))
    case '/' => Some(([Choice("=", DivideAssign, "/=")], Choice("", Divide, "/")))
    case '!' => Some(([Choice("=", NotEqual, "!=")], Choice("", LogicalNot, "!")))
    case '^' => Some(([Choice("=", BitXorAssign, "^=")], Choice("", BitXor, "^")))
    case '=' => Some(([Choice("=", Equal, "==")], Choice("", Assign, "=")))
    case '#' => Some(([Choice("#", HashHash, "##")], Choice("", Hash, "#")))
    case '+' => Some((PlusChoices, Choice("", Add, "=")))
    case '|' => Some((PipeChoices, Choice("", BitOr, "|")))
    case '&' => Some((AmpChoices, Choice("", BitAnd, "&")))
    case '-' => Some((MinusChoices, Choice("", Subtract, "-")))
    case '>' => Some((GreaterChoices, Choice("", Greater, ">")))
    case '<' => Some((LessChoices, Choice("", Less, "<")))
    case '%' => Some((PercentChoices, Choice("", Modulo, "%")))
    case _ => None
  }

  /** No choice's continuation is a prefix of a later one's, so the first that matches is the longest. */
  predicate PrefixFree(choices: seq<Choice>) {
    forall i, j | 0 <= i < j < |choices| :: !(choices[i].follow <= choices[j].follow)
  }

  /** Every table of the switch tries longer continuations before the ones they extend. */
  lemma PunctuatorsLongestFirst(c: char)
    requires Punctuators(c).Some?
    ensures PrefixFree(Punctuators(c).value.0)
  {
    if c == '+' {
      PlusLongestFirst();
    } else if c == '|' {
      PipeLongestFirst();
    } else if c == '&' {
      AmpLongestFirst();
    } else if c == '-' {
      MinusLongestFirst();
    } else if c == '>' {
      GreaterLongestFirst();
    } else if c == '<' {
      LessLongestFirst();
    } else if c == '%' {
      PercentLongestFirst();
    } else {
      assert |Punctuators(c).value.0| <= 1;
    }
  }

  lemma PlusLongestFirst()
    ensures PrefixFree(PlusChoices)
  {
    var t := PlusChoices;
    assert |t| == 2;
    assert t[0].follow[0] == '+' && t[1].follow[0] == '=';
    assert |t[0].follow| == 1 && |t[1].follow| == 1;
    LongestFirstByHeads(t);
  }

  lemma PipeLongestFirst()
    ensures PrefixFree(PipeChoices)
  {
    var t := PipeChoices;
    assert |t| == 2;
    assert t[0].follow[0] == '|' && t[1].follow[0] == '=';
    assert |t[0].follow| == 1 && |t[1].follow| == 1;
    LongestFirstByHeads(t);
  }

  lemma AmpLongestFirst()
    ensures PrefixFree(AmpChoices)
  {
    var t := AmpChoices;
    assert |t| == 2;
    assert t[0].follow[0] == '&' && t[1].follow[0] == '=';
    assert |t[0].follow| == 1 && |t[1].follow| == 1;
    LongestFirstByHeads(t);
  }

  lemma MinusLongestFirst()
    ensures PrefixFree(MinusChoices)
  {
    var t := MinusChoices;
    assert |t| == 3;
    assert t[0].follow[0] == '-' && t[1].follow[0] == '>' && t[2].follow[0] == '=';
    assert |t[0].follow| == 1 && |t[1].follow| == 1 && |t[2].follow| == 1;
    LongestFirstByHeads(t);
  }

  lemma GreaterLongestFirst()
    ensures PrefixFree(GreaterChoices)
  {
    var t := GreaterChoices;
    assert |t| == 3;
    assert t[0].follow[0] == '>' && t[1].follow[0] == '>' && t[2].follow[0] == '=';
    assert |t[0].follow| == 2 && |t[1].follow| == 1 && |t[2].follow| == 1;
    LongestFirstByHeads(t);
  }

  lemma LessLongestFirst()
    ensures PrefixFree(LessChoices)
  {
    var t := LessChoices;
    assert |t| == 5;
    assert t[0].follow[0] == '<' && t[1].follow[0] == '<' && t[2].follow[0] == '=' && t[3].follow[0] == ':' && t[4].follow[0] == '%';
    assert |t[0].follow| == 2 && |t[1].follow| == 1 && |t[2].follow| == 1 && |t[3].follow| == 1 && |t[4].follow| == 1;
    LongestFirstByHeads(t);
  }

  lemma PercentLongestFirst()
    ensures PrefixFree(PercentChoices)
  {
    var t := PercentChoices;
    assert |t| == 4;
    assert t[0].follow[0] == ':' && t[1].follow[0] == ':' && t[2].follow[0] == '>' && t[3].follow[0] == '=';
    assert |t[0].follow| == 3 && |t[1].follow| == 1 && |t[2].follow| == 1 && |t[3].follow| == 1;
    LongestFirstByHeads(t);
  }

  /**
   * A table is prefix-free when continuations come in non-increasing
   * length and continuations of the same length start differently.
   */
  lemma LongestFirstByHeads(choices: seq<Choice>)
    requires forall i | 0 <= i < |choices| :: |choices[i].follow| > 0
    requires forall i, j | 0 <= i < j < |choices| ::
      |choices[i].follow| > |choices[j].follow| || choices[i].follow[0] != choices[j].follow[0]
    ensures PrefixFree(choices)
  {
  }

  /** A recognised lexeme: its kind, its logical text and the physical length it takes; or a hang. */
  datatype Lexeme = Lexeme(kind: CTokenType, text: string, length: nat) | LexemeHangs

  /** The `if (MatchesEscaped(...)) return ...` chain: the first choice whose continuation matches. */
  function FirstMatch(opts: Options, src: string, cur: nat, offset: nat, choices: seq<Choice>, fallback: Choice): (r: Lexeme)
    ensures r.Lexeme? && offset >= 1 ==> r.length >= 1
    ensures r.Lexeme? && fallback.kind != End && (forall i | 0 <= i < |choices| :: choices[i].kind != End) ==> r.kind != End
    ensures r.Lexeme? && |fallback.text| <= 4 && (forall i | 0 <= i < |choices| :: |choices[i].text| <= 4) ==> |r.text| <= 4
    decreases |choices|
  {
    if |choices| == 0 then Lexeme(fallback.kind, fallback.text, offset)
    else
      match MatchText(opts, src, cur, choices[0].follow, offset)
      case Matched(next) => Lexeme(choices[0].kind, choices[0].text, next)
      case MatchHangs => LexemeHangs
      case Unmatched => FirstMatch(opts, src, cur, offset, choices[1..], fallback)
  }

  /** The `switch (peek)` of `Next`, with `offset` just past `peek`. */
  function Punctuate(opts: Options, src: string, cur: nat, peek: char, offset: nat): (r: Lexeme)
    ensures r.Lexeme? ==> r.kind != End
    ensures r.Lexeme? ==> |r.text| <= 4
    ensures r.Lexeme? && offset >= 1 ==> r.length >= 1
  {
    match Punctuators(peek)
    case Some((choices, fallback)) => FirstMatch(opts, src, cur, offset, choices, fallback)
    case None =>
      if peek != '.' then Lexeme(Unknown, [peek], offset)
      else
        match MatchText(opts, src, cur, "..", offset)
        case Matched(next) => Lexeme(Ellipsis, "...", next)
        case MatchHangs => LexemeHangs
        case Unmatched =>
          match ParseEscaped(opts, src, cur, offset)
          case Escaped(c, _) => if !opts.classes.isDigit(c) then Lexeme(Dot, ".", offset) else Lexeme(Unknown, ".", offset)
          case _ => LexemeHangs
  }

  // Tokens and `Next`.

  /** The lexer's changing state: the cursor into the source and `LogicalPosition`. */
  datatype LexState = LexState(cursor: nat, logical: Position)

  /** A C token: its kind, its physical text, and its logical range and text. */
  datatype CToken = CToken(kind: CTokenType, text: string, logicalRange: Range, logicalText: string)

  /** The physical text of `length` characters from `from`, cut at the end of the source. */
  function Slice(src: string, from: nat, length: nat): (s: string)
    ensures |s| <= length
  {
    var lo := if from <= |src| then from else |src|;
    var hi := if from + length <= |src| then from + length else |src|;
    src[lo .. hi]
  }

  /**
   * `TakeToken(type, length, logicalText)`: the logical range runs over
   * `|logicalText|` columns from `LogicalPosition`, which moves to its end;
   * the cursor moves over `length` characters, which are the physical text.
   */
  function TakeToken(src: string, st: LexState, kind: CTokenType, length: nat, logicalText: string): (r: (CToken, LexState))
    ensures r.0.logicalRange.start == st.logical && r.0.logicalRange.end == r.1.logical
    ensures r.1.logical == st.logical.Advance(|logicalText|)
    ensures r.1.cursor == st.cursor + length
    ensures r.0.kind == kind && r.0.logicalText == logicalText
  {
    var end := st.logical.Advance(|logicalText|);
    (CToken(kind, Slice(src, st.cursor, length), Range(st.logical, end), logicalText), LexState(st.cursor + length, end))
  }

  /** What one round of `Next` from `begin:` does: return a token, skip and go round again, or hang. */
  datatype Step = Emit(token: CToken, after: LexState) | Again(after: LexState) | StepHangs

  /** After a carriage return at `offset`, a line feed is taken along if it follows. */
  function AfterCarriageReturn(opts: Options, src: string, cur: nat, offset: nat): (r: Option<nat>)
    ensures r.Some? ==> r.value == offset || 1 <= r.value <= Room(src, cur) + 1
  {
    match MatchChar(opts, src, cur, '\n', offset)
    case Matched(next) => Some(next)
    case Unmatched => Some(offset)
    case MatchHangs => None
  }

  /** The comment branches of `Next`, reached with `peek == '/'` and `offset` just past it. */
  function Comment(opts: Options, src: string, st: LexState, offset: nat): (r: Option<Step>)
    requires 1 <= offset <= Room(src, st.cursor) + 1
    ensures r.Some? && r.value.Again? ==> r.value.after.logical == st.logical.Advance()
    ensures r.Some? && r.value.Again? ==>
      st.cursor + 1 <= r.value.after.cursor <= st.cursor + Room(src, st.cursor) + 1
  {
    var cur := st.cursor;
    match MatchChar(opts, src, cur, '/', offset)
    case MatchHangs => Some(StepHangs)
    case Matched(next) => Some(AfterLineComment(opts, src, st, next))
    case Unmatched =>
      match MatchChar(opts, src, cur, '*', offset)
      case MatchHangs => Some(StepHangs)
      case Unmatched => None
      case Matched(next) => Some(AfterBlockComment(opts, src, st, next))
  }

  /** After `//`: the rest of the line, and a `\n` after a `\r` that ends it. */
  function AfterLineComment(opts: Options, src: string, st: LexState, next: nat): (r: Step)
    requires 1 <= next <= Room(src, st.cursor) + 1
    ensures r.Again? ==> r.after.logical == st.logical.Advance()
    ensures r.Again? ==> st.cursor + 1 <= r.after.cursor <= st.cursor + Room(src, st.cursor) + 1
  {
    var cur := st.cursor;
    match LineCommentFrom(opts, src, cur, next, {})
    case CommentHangs => StepHangs
    case CommentEnd(end, last) =>
      var after := if last == '\r' then AfterCarriageReturn(opts, src, cur, end) else Some(end);
      if after.None? then StepHangs
      else Again(LexState(cur + after.value, st.logical.Advance()))
  }

  /** After the opening of a block comment: up to and including its close, or to the end of input. */
  function AfterBlockComment(opts: Options, src: string, st: LexState, next: nat): (r: Step)
    requires 1 <= next <= Room(src, st.cursor) + 1
    ensures r.Again? ==> r.after.logical == st.logical.Advance()
    ensures r.Again? ==> st.cursor + 1 <= r.after.cursor <= st.cursor + Room(src, st.cursor) + 1
  {
    match BlockCommentFrom(opts, src, st.cursor, next, {})
    case CommentHangs => StepHangs
    case CommentEnd(end, _) => Again(LexState(st.cursor + end, st.logical.Advance()))
  }

  /** One round of `Next` from `begin:`, with the cursor at `st.cursor` and `offset` at 0. */
  function Round(opts: Options, src: string, st: LexState): (r: Step)
    ensures r.Again? ==> st.cursor < r.after.cursor <= |src| + 1
    ensures r.Again? ==> OneStep(st.logical, r.after.logical)
    ensures r.Emit? ==> |r.token.logicalText| <= 4
    ensures r.Emit? ==> r.token.logicalRange == Range(st.logical, r.after.logical)
    ensures r.Emit? ==> r.after.logical == st.logical.Advance(|r.token.logicalText|)
    ensures r.Emit? && r.token.kind == End ==> r.after == st && r.token.text == [] && r.token.logicalText == []
    ensures r.Emit? && r.token.kind != End ==> r.after.cursor > st.cursor
  {
    match TryParseEscaped(opts, src, st.cursor, 0)
    case EscapeHangs => StepHangs
    case EndOfInput(_) =>
      var (token, after) := TakeToken(src, st, End, 0, "");
      Emit(token, after)
    case Escaped(peek, offset) => AfterPeek(opts, src, st, peek, offset)
  }

  /**
   * The rest of the round once `peek` has been read, ending at `offset`: a
   * newline, a blank or NUL, or a control character is skipped; anything
   * else is a comment or a token.
   */
  function AfterPeek(opts: Options, src: string, st: LexState, peek: char, offset: nat): (r: Step)
    requires st.cursor < |src| && 1 <= offset <= Room(src, st.cursor) + 1
    ensures r.Again? ==> st.cursor < r.after.cursor <= |src| + 1
    ensures r.Again? ==> OneStep(st.logical, r.after.logical)
    ensures r.Emit? ==> |r.token.logicalText| <= 4
    ensures r.Emit? ==> r.token.logicalRange == Range(st.logical, r.after.logical)
    ensures r.Emit? ==> r.after.logical == st.logical.Advance(|r.token.logicalText|)
    ensures r.Emit? ==> r.token.kind != End && r.after.cursor > st.cursor
  {
    var cur := st.cursor;
    if peek == '\r' || peek == '\n' then
      var after := if peek == '\r' then AfterCarriageReturn(opts, src, cur, offset) else Some(offset);
      if after.None? then StepHangs
      else Again(LexState(cur + after.value, st.logical.Newline()))
    else if opts.classes.isWhiteSpace(peek) || peek == '\0' then
      Again(LexState(cur + offset, st.logical.Advance()))
    else if opts.classes.isControl(peek) then
      Again(LexState(cur + offset, st.logical))
    else LexToken(opts, src, st, peek, offset)
  }

  /** A comment, if `peek` is `/` and one starts there; otherwise the token the switch makes. */
  function LexToken(opts: Options, src: string, st: LexState, peek: char, offset: nat): (r: Step)
    requires st.cursor < |src| && 1 <= offset <= Room(src, st.cursor) + 1
    ensures r.Again? ==> st.cursor < r.after.cursor <= |src| + 1
    ensures r.Again? ==> r.after.logical == st.logical.Advance()
    ensures r.Emit? ==> r.token.logicalRange == Range(st.logical, r.after.logical)
    ensures r.Emit? ==> r.after.logical == st.logical.Advance(|r.token.logicalText|)
    ensures r.Emit? ==> r.token.kind != End && r.after.cursor > st.cursor
    ensures r.Emit? ==> |r.token.logicalText| <= 4
  {
    var comment := if peek == '/' then Comment(opts, src, st, offset) else None;
    if comment.Some? then comment.value
    else
      match Punctuate(opts, src, st.cursor, peek, offset)
      case LexemeHangs => StepHangs
      case Lexeme(kind, text, length) =>
        var (token, after) := TakeToken(src, st, kind, length, text);
        Emit(token, after)
  }

  /** The outcome of `Next`: a token and the state after it, or a hang. */
  datatype Lexed = Lexed(token: CToken, after: LexState) | LexHangs

  /** `Next()`: rounds from `begin:` until one returns a token. */
  function NextToken(opts: Options, src: string, st: LexState): Lexed
    decreases if st.cursor <= |src| + 1 then |src| + 2 - st.cursor else 0
  {
    match Round(opts, src, st)
    case Emit(token, after) => Lexed(token, after)
    case Again(after) => NextToken(opts, src, after)
    case StepHangs => LexHangs
  }

  // Properties of the escaped character layer.

  /** `MatchesEscaped(char)` is `MatchesEscaped(string)` on the one-character string. */
  lemma MatchCharIsMatchText(opts: Options, src: string, cur: nat, ch: char, offset: nat)
    ensures MatchChar(opts, src, cur, ch, offset) == MatchText(opts, src, cur, [ch], offset)
  {
    assert [ch][1..] == [];
  }

  /** Reading `t1 + t2` at `i` is reading `t1` at `i` and then `t2` right after it. */
  lemma MatchesSplit(src: string, cur: nat, t1: string, t2: string, i: nat)
    requires Matches(src, cur, t1 + t2, i)
    ensures Matches(src, cur, t1, i) && Matches(src, cur, t2, i + |t1|)
  {
    var whole := src[cur + i .. cur + i + |t1| + |t2|];
    assert src[cur + i .. cur + i + |t1|] == whole[..|t1|] == (t1 + t2)[..|t1|] == t1;
    assert src[cur + i + |t1| .. cur + i + |t1| + |t2|] == whole[|t1|..] == (t1 + t2)[|t1|..] == t2;
  }

  /** Text whose first character differs from the source's character at `i` is not read there. */
  lemma HeadDiffers(src: string, cur: nat, text: string, i: nat)
    requires |text| > 0 && cur + i < |src| && src[cur + i] != text[0]
    ensures !Matches(src, cur, text, i)
  {
  }

  /** A `\r\n` holds a `\n` right after its `\r`. */
  lemma CrLfHoldsLf(src: string, cur: nat, i: nat)
    ensures Matches(src, cur, "\r\n", i) ==> Matches(src, cur, "\n", i + 1)
  {
    if Matches(src, cur, "\r\n", i) {
      MatchesSplit(src, cur, "\r", "\n", i);
    }
  }

  /** `n` blanks. */
  function Blanks(n: nat): (s: string)
    ensures |s| == n && forall i | 0 <= i < n :: s[i] == ' '
  {
    if n == 0 then [] else [' '] + Blanks(n - 1)
  }

  /** The newlines that end a line continuation. */
  predicate IsLineBreak(nl: string) {
    nl == "\r\n" || nl == "\n" || nl == "\r"
  }

  /** Place `j` after the cursor holds a blank. */
  predicate Blank(src: string, cur: nat, j: nat) {
    TryPeek(src, cur, j) && IsSpace(src[cur + j])
  }

  /** The blank loop stops at the first character after the blanks. */
  lemma {:induction false} SpacesEndAfterBlanks(src: string, cur: nat, i: nat, stop: nat)
    requires i <= stop && TryPeek(src, cur, stop) && !IsSpace(src[cur + stop])
    requires forall j: nat | i <= j < stop :: Blank(src, cur, j)
    ensures SpacesEnd(src, cur, i) == Some(stop)
    decreases stop - i
  {
    if i < stop {
      assert Blank(src, cur, i);
      SpacesEndAfterBlanks(src, cur, i + 1, stop);
    }
  }

  /**
   * After a backslash of length `backslash`, blanks and then `\r\n`, `\n`
   * or a `\r` not followed by `\n` make a line continuation that ends just
   * after the newline.
   */
  lemma SpliceAfterContinuation(src: string, cur: nat, backslash: nat, k: nat, nl: string)
    requires IsLineBreak(nl) && Matches(src, cur, Blanks(k) + nl, backslash)
    requires nl == "\r" ==> !Matches(src, cur, "\n", backslash + k + 1)
    ensures SpliceAfter(src, cur, backslash) == SpliceTo(backslash + k + |nl|)
  {
    MatchesSplit(src, cur, Blanks(k), nl, backslash);
    var stop := backslash + k;
    forall j: nat | backslash <= j < stop
      ensures Blank(src, cur, j)
    {
      assert src[cur + j] == src[cur + backslash .. cur + backslash + k][j - backslash] == Blanks(k)[j - backslash];
    }
    assert src[cur + stop] == src[cur + stop .. cur + stop + |nl|][0] == nl[0];
    SpacesEndAfterBlanks(src, cur, backslash, stop);
    if nl == "\r" {
      CrLfHoldsLf(src, cur, stop);
    }
    if nl == "\n" {
      assert !Matches(src, cur, "\r\n", stop);
      assert Matches(src, cur, "\n", stop);
    }
  }

  /**
   * A backslash at the cursor, blanks and a newline form a line
   * continuation: `TryParseEscaped` skips them and returns the plain
   * character after them. (A `??/` continuation is not skipped: see
   * `TrigraphContinuationHangs`.)
   */
  lemma ContinuationIsSkipped(opts: Options, src: string, cur: nat, k: nat, nl: string)
    requires opts.lineContinuations
    requires IsLineBreak(nl) && Matches(src, cur, "\\" + (Blanks(k) + nl), 0)
    requires nl == "\r" ==> !Matches(src, cur, "\n", 1 + k + 1)
    requires TryPeek(src, cur, 1 + k + |nl|)
    requires NoBackslash(opts, src, cur, 1 + k + |nl|)
    requires !(opts.trigraphs && Matches(src, cur, "??", 1 + k + |nl|))
    ensures TryParseEscaped(opts, src, cur, 0) ==
      Escaped(src[cur + 1 + k + |nl|], 1 + k + |nl| + 1)
  {
    ContinuationPass(opts, src, cur, "\\", k, nl);
    SpliceThenPlain(opts, src, cur, 1 + k + |nl|);
  }

  /** A first pass that splices to `t`, where a plain character stands, reads that character. */
  lemma SpliceThenPlain(opts: Options, src: string, cur: nat, t: nat)
    requires EscapePass(opts, src, cur, 0) == PassSplice(t) && TryPeek(src, cur, t)
    requires NoBackslash(opts, src, cur, t)
    requires !(opts.trigraphs && Matches(src, cur, "??", t))
    ensures TryParseEscaped(opts, src, cur, 0) == Escaped(src[cur + t], t + 1)
  {
    PassSpliceTarget(opts, src, cur, 0);
    PlainAfterSplice(opts, src, cur, t);
    assert {} + {t} == {t};
    assert EscapeFrom(opts, src, cur, 0, {}) == EscapeFrom(opts, src, cur, t, {t});
  }

  /** After splicing to `t`, a plain character there is what `TryParseEscaped` returns. */
  lemma PlainAfterSplice(opts: Options, src: string, cur: nat, t: nat)
    requires t in SpliceTargets(src, cur) && TryPeek(src, cur, t)
    requires NoBackslash(opts, src, cur, t)
    requires !(opts.trigraphs && Matches(src, cur, "??", t))
    ensures EscapeFrom(opts, src, cur, t, {t}) == Escaped(src[cur + t], t + 1)
  {
    assert EscapePass(opts, src, cur, t) == PassChar(src[cur + t], t + 1);
  }

  /** The first pass over a line continuation at the cursor splices to just after its newline. */
  lemma ContinuationPass(opts: Options, src: string, cur: nat, bs: string, k: nat, nl: string)
    requires opts.lineContinuations
    requires bs == "\\" || (opts.trigraphs && bs == "??/")
    requires IsLineBreak(nl) && Matches(src, cur, bs + (Blanks(k) + nl), 0)
    requires nl == "\r" ==> !Matches(src, cur, "\n", |bs| + k + 1)
    ensures EscapePass(opts, src, cur, 0) == PassSplice(|bs| + k + |nl|)
  {
    MatchesSplit(src, cur, bs, Blanks(k) + nl, 0);
    assert src[cur] == src[cur .. cur + |bs|][0] == bs[0];
    if bs == "??/" {
      assert Matches(src, cur, "??/", 0);
    }
    assert BackslashLength(opts, src, cur, 0) == |bs|;
    SpliceAfterContinuation(src, cur, |bs|, k, nl);
  }

  /** With trigraphs on, `??c` at the cursor decodes to the table's replacement for `c` over three places. */
  lemma TrigraphAtCursor(opts: Options, src: string, cur: nat, c: char)
    requires opts.trigraphs && Matches(src, cur, "??" + [c], 0) && c in "=/'()!<>-"
    requires c == '/' && opts.lineContinuations ==> SpliceAfter(src, cur, 3) == NoSplice
    ensures TryParseEscaped(opts, src, cur, 0) == Escaped(Trigraph(c).value, 3)
  {
    MatchesSplit(src, cur, "??", [c], 0);
    assert src[cur + 2] == src[cur + 2 .. cur + 3][0] == c;
    assert src[cur] == '?';
    if c == '/' && opts.lineContinuations {
      assert Matches(src, cur, "??/", 0);
    }
  }

  /** Decoding fewer characters gives a prefix of decoding more. */
  lemma {:induction false} DecodePrefix(opts: Options, src: string, cur: nat, offset: nat, m: nat, n: nat)
    requires m <= n && Decode(opts, src, cur, offset, n).Decoded?
    ensures Decode(opts, src, cur, offset, m).Decoded?
    ensures Decode(opts, src, cur, offset, m).chars == Decode(opts, src, cur, offset, n).chars[..m]
    decreases m
  {
    if m > 0 {
      var e := TryParseEscaped(opts, src, cur, offset);
      assert e.Escaped?;
      DecodePrefix(opts, src, cur, e.next, m - 1, n - 1);
      var rest := Decode(opts, src, cur, e.next, n - 1).chars;
      assert ([e.c] + rest)[..m] == [e.c] + rest[..m - 1];
    }
  }

  // Longest match.

  /** Of two choices of a prefix-free table that both match, the earlier one has the longer continuation. */
  lemma LongestMatch(opts: Options, src: string, cur: nat, offset: nat, choices: seq<Choice>, i: nat, j: nat)
    requires PrefixFree(choices) && i < j < |choices|
    requires MatchText(opts, src, cur, choices[i].follow, offset).Matched?
    requires MatchText(opts, src, cur, choices[j].follow, offset).Matched?
    ensures |choices[j].follow| < |choices[i].follow|
  {
    var a, b := choices[i].follow, choices[j].follow;
    MatchTextIsDecoding(opts, src, cur, a, offset);
    MatchTextIsDecoding(opts, src, cur, b, offset);
    if |a| <= |b| {
      DecodePrefix(opts, src, cur, offset, |a|, |b|);
      assert false;
    }
  }

  /** The `if`-chain picks the first choice that matches, with the physical length its continuation ends at. */
  lemma {:induction false} FirstMatchPicks(opts: Options, src: string, cur: nat, offset: nat,
                                           choices: seq<Choice>, fallback: Choice, k: nat)
    requires k < |choices|
    requires forall i | 0 <= i < k :: MatchText(opts, src, cur, choices[i].follow, offset).Unmatched?
    requires MatchText(opts, src, cur, choices[k].follow, offset).Matched?
    ensures FirstMatch(opts, src, cur, offset, choices, fallback) ==
      Lexeme(choices[k].kind, choices[k].text, MatchText(opts, src, cur, choices[k].follow, offset).next)
    decreases k
  {
    if k > 0 {
      var tail := choices[1..];
      forall i | 0 <= i < k - 1
        ensures MatchText(opts, src, cur, tail[i].follow, offset).Unmatched?
      {
        assert tail[i] == choices[i + 1];
      }
      assert MatchText(opts, src, cur, choices[0].follow, offset).Unmatched?;
      FirstMatchPicks(opts, src, cur, offset, tail, fallback, k - 1);
    }
  }

  /** In a prefix-free table, the choice the `if`-chain picks is longer than every other choice that matches. */
  lemma FirstMatchIsLongest(opts: Options, src: string, cur: nat, offset: nat,
                            choices: seq<Choice>, fallback: Choice, k: nat)
    requires PrefixFree(choices) && k < |choices|
    requires forall i | 0 <= i < k :: MatchText(opts, src, cur, choices[i].follow, offset).Unmatched?
    requires MatchText(opts, src, cur, choices[k].follow, offset).Matched?
    ensures FirstMatch(opts, src, cur, offset, choices, fallback) ==
      Lexeme(choices[k].kind, choices[k].text, MatchText(opts, src, cur, choices[k].follow, offset).next)
    ensures forall j | 0 <= j < |choices| && j != k && MatchText(opts, src, cur, choices[j].follow, offset).Matched? ::
      |choices[j].follow| < |choices[k].follow|
  {
    FirstMatchPicks(opts, src, cur, offset, choices, fallback, k);
    forall j | 0 <= j < |choices| && j != k && MatchText(opts, src, cur, choices[j].follow, offset).Matched?
      ensures |choices[j].follow| < |choices[k].follow|
    {
      LongestMatch(opts, src, cur, offset, choices, k, j);
    }
  }

  // Properties of `Next`.

  /** At the end of input `Next` returns an `End` token with empty texts and leaves the state as it is. */
  lemma EndOfInputGivesEnd(opts: Options, src: string, st: LexState)
    requires st.cursor >= |src|
    ensures NextToken(opts, src, st) == Lexed(CToken(End, "", Range(st.logical, st.logical), ""), st)
  {
    assert st.logical.Advance(0) == st.logical;
    assert TryParseEscaped(opts, src, st.cursor, 0) == EndOfInput(0);
  }

  /** Once `Next` has returned `End`, it returns the same token again. */
  lemma {:induction false} EndIsSticky(opts: Options, src: string, st: LexState)
    requires NextToken(opts, src, st).Lexed? && NextToken(opts, src, st).token.kind == End
    ensures NextToken(opts, src, NextToken(opts, src, st).after) == NextToken(opts, src, st)
    decreases if st.cursor <= |src| + 1 then |src| + 2 - st.cursor else 0
  {
    match Round(opts, src, st)
    case Again(after) => EndIsSticky(opts, src, after);
    case Emit(token, after) =>
  }

  /**
   * What a skipped round does to the logical position: one column on, to
   * the next line, or nothing (a control character).
   */
  ghost predicate OneStep(p: Position, q: Position) {
    q == p || q == p.Advance() || q == p.Newline()
  }

  /** How many more rounds `Next` can run from `st` at most. */
  function RoundsLeft(src: string, st: LexState): nat {
    if st.cursor <= |src| + 1 then |src| + 2 - st.cursor else 0
  }

  /**
   * The logical position has room for the rest of the input: with one line
   * and one column per remaining round and a token of up to four columns at
   * the end, neither the line nor the column passes Int32.MaxValue.
   */
  ghost predicate HasRoom(src: string, st: LexState) {
    var n := RoundsLeft(src, st);
    st.logical.line + n <= Int32Max && st.logical.column + n + 4 <= Int32Max && n + 4 <= Int32Max
  }

  /**
   * `Next` never moves back: the cursor only grows, a token other than `End`
   * takes input, and a token's logical range runs over its logical text up
   * to where the logical position ends. The logical position grows too, as
   * long as it does not run past the Int32 range of its line and column.
   */
  lemma {:induction false} NextTokenAdvances(opts: Options, src: string, st: LexState)
    requires NextToken(opts, src, st).Lexed?
    ensures var r := NextToken(opts, src, st);
      st.cursor <= r.after.cursor
      && (r.token.kind != End ==> st.cursor < r.after.cursor)
      && r.token.logicalRange.end == r.after.logical
      && r.after.logical == r.token.logicalRange.start.Advance(|r.token.logicalText|)
      && (HasRoom(src, st) ==>
            st.logical.LessEq(r.after.logical) && st.logical.LessEq(r.token.logicalRange.start))
    decreases if st.cursor <= |src| + 1 then |src| + 2 - st.cursor else 0
  {
    match Round(opts, src, st)
    case Again(after) =>
      NextTokenAdvances(opts, src, after);
      var r := NextToken(opts, src, after);
      if HasRoom(src, st) {
        assert HasRoom(src, after);
        assert st.logical.LessEq(after.logical);
        LessEqTransitive(st.logical, after.logical, r.after.logical);
        LessEqTransitive(st.logical, after.logical, r.token.logicalRange.start);
      }
    case Emit(token, after) =>
      assert after.logical == st.logical.Advance(|token.logicalText|);
      if HasRoom(src, st) {
        assert st.logical.column <= after.logical.column;
      }
  }

  lemma LessEqTransitive(p: Position, q: Position, s: Position)
    requires p.LessEq(q) && q.LessEq(s)
    ensures p.LessEq(s)
  {
    if p != q && q != s {
      CompareToTransitive(p, q, s);
    }
  }

  // Properties of the switch.

  /** A continuation whose first character is not the next escaped character does not match. */
  lemma HeadMismatch(opts: Options, src: string, cur: nat, text: string, offset: nat)
    requires |text| > 0 && TryParseEscaped(opts, src, cur, offset).Escaped?
    requires TryParseEscaped(opts, src, cur, offset).c != text[0]
    ensures MatchText(opts, src, cur, text, offset) == Unmatched
  {
  }

  /** A one-character continuation that is the next escaped character matches up to its end. */
  lemma HeadMatch(opts: Options, src: string, cur: nat, c: char, offset: nat, n: nat)
    requires TryParseEscaped(opts, src, cur, offset) == Escaped(c, n)
    ensures MatchText(opts, src, cur, [c], offset) == Matched(n)
  {
    MatchCharIsMatchText(opts, src, cur, c, offset);
  }

  /** `#` followed by the escaped character `#` is `##`. */
  lemma HashAfterHash(opts: Options, src: string, cur: nat, offset: nat, n: nat)
    requires TryParseEscaped(opts, src, cur, offset) == Escaped('#', n)
    ensures Punctuate(opts, src, cur, '#', offset) == Lexeme(HashHash, "##", n)
  {
    PunctuateByTable(opts, src, cur, '#', offset);
    HeadMatch(opts, src, cur, '#', offset, n);
  }

  /** For a character with a table, the switch is the `if`-chain over that table. */
  lemma PunctuateByTable(opts: Options, src: string, cur: nat, peek: char, offset: nat)
    requires Punctuators(peek).Some?
    ensures Punctuate(opts, src, cur, peek, offset) ==
      FirstMatch(opts, src, cur, offset, Punctuators(peek).value.0, Punctuators(peek).value.1)
  {
  }

  lemma LessTableDigraphs(opts: Options, src: string, cur: nat, offset: nat, c: char, n: nat)
    requires TryParseEscaped(opts, src, cur, offset) == Escaped(c, n) && (c == ':' || c == '%')
    ensures FirstMatch(opts, src, cur, offset, LessChoices, Choice("", Less, "<")) ==
      if c == ':' then Lexeme(OpenBracket, "<:", n) else Lexeme(OpenBrace, "<%", n)
  {
    var t := LessChoices;
    HeadMismatch(opts, src, cur, t[0].follow, offset);
    HeadMismatch(opts, src, cur, t[1].follow, offset);
    HeadMismatch(opts, src, cur, t[2].follow, offset);
    HeadMatch(opts, src, cur, c, offset, n);
    if c == ':' {
      FirstMatchPicks(opts, src, cur, offset, t, Choice("", Less, "<"), 3);
    } else {
      HeadMismatch(opts, src, cur, t[3].follow, offset);
      FirstMatchPicks(opts, src, cur, offset, t, Choice("", Less, "<"), 4);
    }
  }

  /** `<:` is `[` and `<%` is `{` (section 6.4.6 of ISO/IEC 9899:2011), with no check of `AllowDigraphs`. */
  lemma LessDigraphs(opts: Options, src: string, cur: nat, offset: nat, c: char, n: nat)
    requires TryParseEscaped(opts, src, cur, offset) == Escaped(c, n) && (c == ':' || c == '%')
    ensures Punctuate(opts, src, cur, '<', offset) ==
      if c == ':' then Lexeme(OpenBracket, "<:", n) else Lexeme(OpenBrace, "<%", n)
  {
    PunctuateByTable(opts, src, cur, '<', offset);
    assert Punctuators('<') == Some((LessChoices, Choice("", Less, "<")));
    LessTableDigraphs(opts, src, cur, offset, c, n);
  }

  lemma PercentTableDigraphs(opts: Options, src: string, cur: nat, offset: nat, n: nat)
    ensures TryParseEscaped(opts, src, cur, offset) == Escaped('>', n) ==>
      FirstMatch(opts, src, cur, offset, PercentChoices, Choice("", Modulo, "%")) == Lexeme(CloseBrace, "%>", n)
    ensures MatchText(opts, src, cur, ":%:", offset) == Matched(n) ==>
      FirstMatch(opts, src, cur, offset, PercentChoices, Choice("", Modulo, "%")) == Lexeme(HashHash, "%:%:", n)
    ensures TryParseEscaped(opts, src, cur, offset) == Escaped(':', n) && MatchText(opts, src, cur, ":%:", offset).Unmatched? ==>
      FirstMatch(opts, src, cur, offset, PercentChoices, Choice("", Modulo, "%")) == Lexeme(Hash, "%:", n)
  {
    var t := PercentChoices;
    var e := TryParseEscaped(opts, src, cur, offset);
    if e == Escaped('>', n) {
      HeadMismatch(opts, src, cur, t[0].follow, offset);
      HeadMismatch(opts, src, cur, t[1].follow, offset);
      HeadMatch(opts, src, cur, '>', offset, n);
      FirstMatchPicks(opts, src, cur, offset, t, Choice("", Modulo, "%"), 2);
    }
    if e == Escaped(':', n) && MatchText(opts, src, cur, ":%:", offset).Unmatched? {
      HeadMatch(opts, src, cur, ':', offset, n);
      FirstMatchPicks(opts, src, cur, offset, t, Choice("", Modulo, "%"), 1);
    }
  }

  /** `:>` is `]` and `%>` is `}`, with no check of `AllowDigraphs`. */
  lemma CloseDigraphs(opts: Options, src: string, cur: nat, offset: nat, n: nat)
    requires TryParseEscaped(opts, src, cur, offset) == Escaped('>', n)
    ensures Punctuate(opts, src, cur, ':', offset) == Lexeme(CloseBracket, ":>", n)
    ensures Punctuate(opts, src, cur, '%', offset) == Lexeme(CloseBrace, "%>", n)
  {
    ColonGreater(opts, src, cur, offset, n);
    PercentGreater(opts, src, cur, offset, n);
  }

  /** `:>` is `]`. */
  lemma ColonGreater(opts: Options, src: string, cur: nat, offset: nat, n: nat)
    requires TryParseEscaped(opts, src, cur, offset) == Escaped('>', n)
    ensures Punctuate(opts, src, cur, ':', offset) == Lexeme(CloseBracket, ":>", n)
  {
    PunctuateByTable(opts, src, cur, ':', offset);
    HeadMatch(opts, src, cur, '>', offset, n);
  }

  /** `%>` is `}`. */
  lemma PercentGreater(opts: Options, src: string, cur: nat, offset: nat, n: nat)
    requires TryParseEscaped(opts, src, cur, offset) == Escaped('>', n)
    ensures Punctuate(opts, src, cur, '%', offset) == Lexeme(CloseBrace, "%>", n)
  {
    PunctuateByTable(opts, src, cur, '%', offset);
    assert Punctuators('%') == Some((PercentChoices, Choice("", Modulo, "%")));
    PercentTableDigraphs(opts, src, cur, offset, n);
  }

  /** `%:%:` is `##` and otherwise `%:` is `#`, with no check of `AllowDigraphs`. */
  lemma HashDigraphs(opts: Options, src: string, cur: nat, offset: nat, n: nat)
    requires TryParseEscaped(opts, src, cur, offset) == Escaped(':', n)
    requires !MatchText(opts, src, cur, ":%:", offset).MatchHangs?
    ensures Punctuate(opts, src, cur, '%', offset) ==
      if MatchText(opts, src, cur, ":%:", offset).Matched?
      then Lexeme(HashHash, "%:%:", MatchText(opts, src, cur, ":%:", offset).next)
      else Lexeme(Hash, "%:", n)
  {
    PunctuateByTable(opts, src, cur, '%', offset);
    assert Punctuators('%') == Some((PercentChoices, Choice("", Modulo, "%")));
    var m := MatchText(opts, src, cur, ":%:", offset);
    PercentTableDigraphs(opts, src, cur, offset, n);
    if m.Matched? {
      PercentTableDigraphs(opts, src, cur, offset, m.next);
    }
  }

  /** `+` followed by neither `+` nor `=` is `Add`, whose logical text the source writes as `=`. */
  lemma PlusAloneHasTextAssign(opts: Options, src: string, cur: nat, offset: nat)
    requires MatchChar(opts, src, cur, '+', offset).Unmatched? && MatchChar(opts, src, cur, '=', offset).Unmatched?
    ensures Punctuate(opts, src, cur, '+', offset) == Lexeme(Add, "=", offset)
  {
    MatchCharIsMatchText(opts, src, cur, '+', offset);
    MatchCharIsMatchText(opts, src, cur, '=', offset);
  }

  /**
   * `..` after `.` makes `...`; otherwise a `.` before a digit is left
   * unknown (it starts a number) and any other `.` is `Dot`.
   */
  lemma DotCases(opts: Options, src: string, cur: nat, offset: nat)
    requires !MatchText(opts, src, cur, "..", offset).MatchHangs?
    requires !TryParseEscaped(opts, src, cur, offset).EscapeHangs?
    ensures MatchText(opts, src, cur, "..", offset).Matched? ==>
      Punctuate(opts, src, cur, '.', offset) == Lexeme(Ellipsis, "...", MatchText(opts, src, cur, "..", offset).next)
    ensures MatchText(opts, src, cur, "..", offset).Unmatched? ==>
      Punctuate(opts, src, cur, '.', offset) ==
        Lexeme(if opts.classes.isDigit(ParseEscaped(opts, src, cur, offset).c) then Unknown else Dot, ".", offset)
  {
  }

  /**
   * What a round that goes back to `begin:` does to the logical position:
   * a newline (with a `\n` after a `\r` taken along) moves to the next line,
   * a blank, NUL or comment moves one column, a control character moves nothing.
   */
  lemma RoundSkips(opts: Options, src: string, st: LexState)
    requires Round(opts, src, st).Again?
    ensures TryParseEscaped(opts, src, st.cursor, 0).Escaped?
    ensures var e, after := TryParseEscaped(opts, src, st.cursor, 0), Round(opts, src, st).after;
      if IsNewline(e.c) then
        after.logical == st.logical.Newline() &&
        after.cursor == st.cursor + (if e.c == '\r' && MatchChar(opts, src, st.cursor, '\n', e.next).Matched?
                                     then MatchChar(opts, src, st.cursor, '\n', e.next).next else e.next)
      else if opts.classes.isWhiteSpace(e.c) || e.c == '\0' then
        after.logical == st.logical.Advance() && after.cursor == st.cursor + e.next
      else if opts.classes.isControl(e.c) then
        after.logical == st.logical && after.cursor == st.cursor + e.next
      else
        e.c == '/' && after.logical == st.logical.Advance()
  {
  }
}
