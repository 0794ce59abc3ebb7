/**
 * `TryParseEscaped` reads the backslash check, the blanks, the newline of
 * a line continuation and the third character of a trigraph relative to
 * the cursor instead of relative to the offset it was given, and its
 * blank loop runs past the end of input; a backslash with no continuation
 * ends at its own length rather than past itself. This module shows what
 * that does on short inputs (misread characters, and hangs on `??/` and on
 * a backslash inside a comment), and defines the escaped read the code
 * evidently intends, with every read anchored at the offset and the blank
 * loop stopping at the end, proved never to hang and to agree with the
 * code at the cursor. It also gives the `+` fallback its evidently
 * intended logical text.
 */
module CLexerAnchored {
  import opened Wrappers
  import opened Text
  import opened CLexerSpec

  /** An escaped read with its offsets moved on by `d`. */
  function ShiftEscaped(e: Escaped, d: nat): Escaped {
    match e
    case Escaped(c, next) => Escaped(c, next + d)
    case EndOfInput(at) => EndOfInput(at + d)
    case EscapeHangs => EscapeHangs
  }

  // The code as written.

  /**
   * In `-\` newline `=`, the backslash at offset 1 is read as a backslash
   * that ends at offset 1, because the blanks and the newline after it are
   * looked for next to the cursor; with the cursor moved onto the backslash
   * the same characters are a line continuation and the `=` after it.
   * So `-` is not joined with `=` across the continuation.
   */
lemma ContinuationAwayFromCursor(opts: Options)
    requires opts.lineContinuations
    ensures TryParseEscaped(opts, "-\\\n=", 0, 1) == Escaped('\\', 1)
    ensures TryParseEscaped(opts, "-\\\n=", 1, 0) == Escaped('=', 3)
    ensures TryParseEscaped(opts, "-\\\n=", 0, 1) != ShiftEscaped(TryParseEscaped(opts, "-\\\n=", 1, 0), 1)
  {
    BackslashReadAtCursor(opts);
    ContinuationReadAtBackslash(opts);
  }

  /** Seen from the cursor at `-`, the backslash has no newline after it. */
  lemma BackslashReadAtCursor(opts: Options)
    requires opts.lineContinuations
    ensures TryParseEscaped(opts, "-\\\n=", 0, 1) == Escaped('\\', 1)
  {
    var src := "-\\\n=";
    assert src[1] == '\\';
    assert SpacesEnd(src, 0, 1) == Some(1);
    HeadDiffers(src, 0, "\r\n", 1);
    HeadDiffers(src, 0, "\r", 1);
    HeadDiffers(src, 0, "\n", 1);
    assert SpliceAfter(src, 0, 1) == NoSplice;
  }

  /** With the cursor on the backslash, the continuation is skipped. */
  lemma ContinuationReadAtBackslash(opts: Options)
    requires opts.lineContinuations
    ensures TryParseEscaped(opts, "-\\\n=", 1, 0) == Escaped('=', 3)
  {
    var src := "-\\\n=";
    assert Matches(src, 1, "\\" + (Blanks(0) + "\n"), 0) by {
      assert "\\" + (Blanks(0) + "\n") == "\\\n";
    }
    assert src[1 .. 4][0] != "??/"[0];
    ContinuationIsSkipped(opts, src, 1, 0, "\n");
  }

  /** So the `-` before the continuation is a `-` of its own, not the start of `-=`. */
  lemma MinusBeforeContinuation(opts: Options)
    requires opts.lineContinuations
    ensures Punctuate(opts, "-\\\n=", 0, '-', 1) == Lexeme(Subtract, "-", 1)
  {
    var src := "-\\\n=";
    BackslashReadAtCursor(opts);
    PunctuateByTable(opts, src, 0, '-', 1);
    assert Punctuators('-') == Some((MinusChoices, Choice("", Subtract, "-")));
    var t := MinusChoices;
    HeadMismatch(opts, src, 0, t[0].follow, 1);
    HeadMismatch(opts, src, 0, t[1].follow, 1);
    HeadMismatch(opts, src, 0, t[2].follow, 1);
    assert FirstMatch(opts, src, 0, 1, t[3..], Choice("", Subtract, "-")) == Lexeme(Subtract, "-", 1);
  }

  /**
   * In `??=??(`, the trigraph at offset 3 takes its third character from
   * the cursor plus two, the `=` of the first trigraph, so it reads `#`
   * instead of `[`.
   */
  lemma TrigraphAwayFromCursor(opts: Options)
    requires opts.trigraphs
    ensures TryParseEscaped(opts, "??=??(", 0, 3) == Escaped('#', 6)
    ensures TryParseEscaped(opts, "??=??(", 3, 0) == Escaped('[', 3)
  {
    var src := "??=??(";
    assert src[0 .. 3][2] != "??/"[2];
    assert Matches(src, 0, "??", 3) && src[2] == '=';
    assert Matches(src, 3, "??" + ['('], 0);
    TrigraphAtCursor(opts, src, 3, '(');
  }

  /** So `Next` makes one `##` of the two trigraphs. */
  lemma TrigraphsMakeHashHash(opts: Options)
    requires opts.trigraphs
    ensures Punctuate(opts, "??=??(", 0, '#', 3) == Lexeme(HashHash, "##", 6)
  {
    TrigraphAwayFromCursor(opts);
    HashAfterHash(opts, "??=??(", 0, 3, 6);
  }

  /**
   * A backslash as the last character, with line continuations on, never
   * comes back: the blank loop reads NUL past the end, which counts as a
   * blank, for ever. `Next` hangs on it.
   */
  lemma BackslashAtEndHangs(opts: Options, p: Position)
    requires opts.lineContinuations
    ensures TryParseEscaped(opts, "\\", 0, 0) == EscapeHangs
    ensures NextToken(opts, "\\", LexState(0, p)) == LexHangs
  {
    assert SpacesEnd("\\", 0, 1) == None;
  }

  /**
   * `??/` at the cursor counts as a backslash at every offset, because it
   * is looked for at the cursor. So after `??/` and a newline the read
   * splices to the character after the newline, finds the same `??/` again
   * and splices to the same place for ever.
   */
  lemma TrigraphContinuationHangs(opts: Options)
    requires opts.lineContinuations && opts.trigraphs
    ensures TryParseEscaped(opts, "??/\nX", 0, 0) == EscapeHangs
  {
    var src := "??/\nX";
    assert Matches(src, 0, "??/", 0);
    assert SpacesEnd(src, 0, 3) == Some(3);
    assert SpliceAfter(src, 0, 3) == SpliceTo(4);
  }

  /**
   * A backslash that is not a continuation ends at the backslash's length,
   * counted from the cursor and not from the offset. In a comment that is
   * a place before the backslash, so the comment loop reads the backslash
   * again and again: with line continuations on, a comment holding a
   * backslash hangs `Next`.
   */
  lemma BackslashInCommentHangs(opts: Options, p: Position)
    requires opts.lineContinuations
    requires !opts.classes.isWhiteSpace('/') && !opts.classes.isControl('/')
    ensures TryParseEscaped(opts, "//\\x", 0, 2) == Escaped('\\', 1)
    ensures NextToken(opts, "//\\x", LexState(0, p)) == LexHangs
  {
    var src := "//\\x";
    CommentBackslashReadsBack(opts);
    assert MatchChar(opts, src, 0, '/', 1) == Matched(2);
    assert LineCommentFrom(opts, src, 0, 1, {2}) == LineCommentFrom(opts, src, 0, 2, {2, 1});
    assert LineCommentFrom(opts, src, 0, 2, {}) == CommentHangs;
    assert Comment(opts, src, LexState(0, p), 1) == Some(StepHangs);
  }

  /** In `//\x`, the two slashes read as themselves and the backslash ends at 1. */
  lemma CommentBackslashReadsBack(opts: Options)
    requires opts.lineContinuations
    ensures TryParseEscaped(opts, "//\\x", 0, 0) == Escaped('/', 1)
    ensures TryParseEscaped(opts, "//\\x", 0, 1) == Escaped('/', 2)
    ensures TryParseEscaped(opts, "//\\x", 0, 2) == Escaped('\\', 1)
  {
    var src := "//\\x";
    assert src[2] == '\\' && src[1] == '/' && src[0] == '/';
    assert !Matches(src, 0, "??/", 0) && !Matches(src, 0, "??", 0) && !Matches(src, 0, "??", 1);
    assert SpacesEnd(src, 0, 1) == Some(1);
    HeadDiffers(src, 0, "\r\n", 1);
    HeadDiffers(src, 0, "\r", 1);
    HeadDiffers(src, 0, "\n", 1);
    assert SpliceAfter(src, 0, 1) == NoSplice;
  }

  // The evidently intended read.

  /*
   * The intended read is defined at absolute places of the source, so what
   * it reads at `offset` from a cursor depends only on `cursor + offset`:
   * it reads the same as from a cursor moved forward by any part of the offset.
   */

  /** The first place from `i` that is past the end of input or not a blank. */
  function AnchoredSpacesEnd(src: string, i: nat): (r: nat)
    ensures i <= r && (r < |src| ==> !IsSpace(src[r]))
    decreases |src| - i
  {
    if i < |src| && IsSpace(src[i]) then AnchoredSpacesEnd(src, i + 1) else i
  }

  /** The backslash, or `??/`, at `at`: its length, or 0. */
  function AnchoredBackslash(opts: Options, src: string, at: nat): (n: nat)
    requires at < |src|
    ensures n == 0 || n == 1 || n == 3
    ensures n == 1 <==> src[at] == '\\'
  {
    if src[at] == '\\' then 1
    else if opts.trigraphs && Matches(src, 0, "??/", at) then 3
    else 0
  }

  /** The newline at `at`: 2 for `\r\n`, 1 for `\r` or `\n`, 0 for none. */
  function NewlineLength(src: string, at: nat): (n: nat)
    ensures n <= 2 && (n > 0 ==> at < |src| && IsNewline(src[at]))
  {
    if Matches(src, 0, "\r\n", at) then 2
    else if Matches(src, 0, "\r", at) || Matches(src, 0, "\n", at) then 1
    else 0
  }

  /**
   * One pass of the intended read at `at`: a backslash (or `??/`) there,
   * blanks after it up to the end of input and a newline after those make
   * a continuation to skip; the trigraph's third character is the one at
   * `at + 2`.
   */
  function AnchoredPass(opts: Options, src: string, at: nat): (r: Pass)
    ensures r.PassEnd? <==> |src| <= at
    ensures !r.PassHangs?
    ensures r.PassChar? ==> at < r.next <= |src|
    ensures r.PassSplice? ==> at < r.target
  {
    if |src| <= at then PassEnd
    else
      var backslash := AnchoredBackslash(opts, src, at);
      if opts.lineContinuations && backslash > 0 then
        var length := AnchoredSpacesEnd(src, at + backslash);
        var newline := NewlineLength(src, length);
        if newline > 0 then PassSplice(length + newline)
        else PassChar('\\', at + backslash)
      else if opts.trigraphs && Matches(src, 0, "??", at) && at + 2 < |src|
        && Trigraph(src[at + 2]).Some? then
        PassChar(Trigraph(src[at + 2]).value, at + 3)
      else PassChar(src[at], at + 1)
  }

  /** The intended read at the absolute place `at`: it never hangs. */
  function AnchoredEscapeAt(opts: Options, src: string, at: nat): (r: Escaped)
    ensures !r.EscapeHangs?
    ensures r.Escaped? ==> at < r.next <= |src|
    ensures r.EndOfInput? ==> at <= r.at && |src| <= r.at
    decreases |src| - at
  {
    match AnchoredPass(opts, src, at)
    case PassEnd => EndOfInput(at)
    case PassChar(c, next) => Escaped(c, next)
    case PassSplice(target) => AnchoredEscapeAt(opts, src, target)
  }

  /**
   * `TryParseEscaped` as intended: the read at `offset` from the cursor.
   * It never hangs; a character it reads ends after `offset` and within
   * the input, and the end of input is reported at or after `offset`.
   */
  function AnchoredEscape(opts: Options, src: string, cur: nat, offset: nat): (r: Escaped)
    ensures !r.EscapeHangs?
    ensures r.Escaped? ==> offset < r.next <= Room(src, cur)
    ensures r.EndOfInput? ==> offset <= r.at && !TryPeek(src, cur, r.at)
  {
    match AnchoredEscapeAt(opts, src, cur + offset)
    case Escaped(c, next) => Escaped(c, next - cur)
    case EndOfInput(at) => EndOfInput(at - cur)
  }

  /**
   * With no backslash at the cursor, the intended read at the cursor is
   * the one the code makes: the fix changes only reads away from the
   * cursor.
   */
  lemma AnchoredAgreesAtCursor(opts: Options, src: string, cur: nat)
    requires TryPeek(src, cur, 0) && NoBackslash(opts, src, cur, 0)
    ensures AnchoredEscape(opts, src, cur, 0) == TryParseEscaped(opts, src, cur, 0)
  {
    assert Matches(src, 0, "??/", cur) == Matches(src, cur, "??/", 0);
    assert Matches(src, 0, "??", cur) == Matches(src, cur, "??", 0);
    assert AnchoredBackslash(opts, src, cur) == BackslashLength(opts, src, cur, 0);
  }

  /**
   * On the three inputs above the intended read gives what the code
   * intends: `=` after the continuation, `[` for the second trigraph, and
   * the lone backslash as a backslash.
   */
  lemma AnchoredReadsAsIntended(opts: Options)
    ensures opts.lineContinuations ==> AnchoredEscape(opts, "-\\\n=", 0, 1) == Escaped('=', 4)
    ensures opts.trigraphs ==> AnchoredEscape(opts, "??=??(", 0, 3) == Escaped('[', 6)
    ensures AnchoredEscape(opts, "\\", 0, 0) == Escaped('\\', 1)
  {
    if opts.lineContinuations {
      var src := "-\\\n=";
      assert AnchoredSpacesEnd(src, 2) == 2;
      assert Matches(src, 0, "\n", 2) && !Matches(src, 0, "\r\n", 2);
      assert AnchoredPass(opts, src, 1) == PassSplice(3);
      assert src[0 .. 3][2] != "??/"[2];
      assert AnchoredPass(opts, src, 3) == PassChar('=', 4);
    }
    if opts.trigraphs {
      var src := "??=??(";
      assert src[3 .. 6][2] != "??/"[2];
      assert Matches(src, 0, "??", 3);
      assert AnchoredPass(opts, src, 3) == PassChar('[', 6);
    }
    assert AnchoredSpacesEnd("\\", 1) == 1;
  }

  /**
   * The intended read skips a `??/` continuation and goes on after it, and
   * a backslash that starts no continuation ends just after itself, so a
   * comment loop over it moves on.
   */
  lemma AnchoredSkipsAndMovesOn(opts: Options)
    ensures opts.lineContinuations && opts.trigraphs ==> AnchoredEscape(opts, "??/\nX", 0, 0) == Escaped('X', 5)
    ensures opts.lineContinuations ==> AnchoredEscape(opts, "//\\x", 0, 2) == Escaped('\\', 3)
  {
    if opts.lineContinuations && opts.trigraphs {
      var src := "??/\nX";
      assert Matches(src, 0, "??/", 0);
      assert AnchoredSpacesEnd(src, 3) == 3;
      assert Matches(src, 0, "\n", 3) && !Matches(src, 0, "\r\n", 3);
      assert AnchoredPass(opts, src, 0) == PassSplice(4);
      assert !Matches(src, 0, "??/", 4) && !Matches(src, 0, "??", 4);
      assert AnchoredPass(opts, src, 4) == PassChar('X', 5);
    }
    if opts.lineContinuations {
      var src := "//\\x";
      assert AnchoredSpacesEnd(src, 3) == 3;
      assert !Matches(src, 0, "\r\n", 3) && !Matches(src, 0, "\r", 3) && !Matches(src, 0, "\n", 3);
      assert AnchoredPass(opts, src, 2) == PassChar('\\', 3);
    }
  }

  // The evidently intended `+` token.

  /** The switch tables with the text of a lone `+` written as `+`. */
  function IntendedPunctuators(c: char): Option<(seq<Choice>, Choice)> {
    if c == '+' then Some((PlusChoices, Choice("", Add, "+"))) else Punctuators(c)
  }

  /**
   * In the intended tables, what a punctuator makes when no continuation
   * matches has as its logical text the one character it was read from,
   * as every table but `+` has in the code; only `+` changes.
   */
  lemma IntendedFallbacksSpellTheirCharacter(c: char)
    ensures IntendedPunctuators(c).Some? ==> IntendedPunctuators(c).value.1.text == [c]
    ensures c != '+' ==> IntendedPunctuators(c) == Punctuators(c)
    ensures Punctuators('+').value.1.text == "=" && IntendedPunctuators('+').value.1.text == "+"
  {
  }
}
