/**
 * Yoakke's C lexer as an object: the source and the cursor of its lexer
 * base, the logical position it updates while lexing, and the three
 * switches. Every method does what the source's method does, step by
 * step, and is proved to compute the function of `CLexerSpec` that
 * describes it; the properties of the lexer are proved there about those
 * functions.
 */
module CSyntax {
  import opened Wrappers
  import opened Text
  import opened CLexerSpec

  class CLexer {
    /** The text being lexed. */
    const source: string
    /** How far the lexer base has consumed the source. */
    var cursor: nat
    /** `LogicalPosition`: line continuations do not start a new line in it. */
    var logicalPosition: Position
    var allowLineContinuations: bool
    /** `AllowDigraphs`: kept, but nothing reads it. */
    var allowDigraphs: bool
    var allowTrigraphs: bool
    /** `char.IsWhiteSpace`, `char.IsControl` and `char.IsDigit`. */
    const classes: CharClasses

    /** The switches as the functions of `CLexerSpec` see them. */
    function Opts(): Options
      reads this
    {
      Options(allowLineContinuations, allowTrigraphs, classes)
    }

    /** The part of the lexer that `Next` changes. */
    function State(): LexState
      reads this
    {
      LexState(cursor, logicalPosition)
    }

    /** `CLexer(string source)`: at the start of the text, with every switch on. */
    constructor(source: string, classes: CharClasses)
      ensures this.source == source && this.classes == classes
      ensures cursor == 0 && logicalPosition == Position(0, 0)
      ensures allowLineContinuations && allowDigraphs && allowTrigraphs
    {
      this.source := source;
      this.classes := classes;
      cursor := 0;
      logicalPosition := Position(0, 0);
      allowLineContinuations := true;
      allowDigraphs := true;
      allowTrigraphs := true;
    }

    /**
     * The loop that skips the blanks after a backslash, from `from`: it
     * stops at the first character that is not a blank, and never at the
     * end of input, where `Peek` gives NUL for ever (None).
     */
    method SkipBlanks(from: nat) returns (r: Option<nat>)
      ensures r == SpacesEnd(source, cursor, from)
    {
      var length := from;
      while cursor + length < |source| && IsSpace(source[cursor + length])
        invariant from <= length
        invariant SpacesEnd(source, cursor, length) == SpacesEnd(source, cursor, from)
        decreases |source| - (cursor + length)
      {
        length := length + 1;
      }
      if cursor + length >= |source| {
        return None;
      }
      return Some(length);
    }

    /** `TryParseEscaped` from `begin:` to the next `goto begin` or `return`. */
    method EscapePassAt(off: nat) returns (p: Pass)
      ensures p == EscapePass(Opts(), source, cursor, off)
    {
      if cursor + off >= |source| {
        return PassEnd;
      }
      var ch := source[cursor + off];
      if allowLineContinuations {
        var backslashLength := 0;
        if ch == '\\' {
          backslashLength := 1;
        } else if allowTrigraphs && Matches(source, cursor, "??/", 0) {
          backslashLength := 3;
        }
        assert backslashLength == BackslashLength(Opts(), source, cursor, off);
        if backslashLength > 0 {
          var blanks := SkipBlanks(backslashLength);
          if blanks.None? {
            return PassHangs;
          }
          var length := blanks.value;
          var newline := 0;
          if Matches(source, cursor, "\r\n", length) {
            newline := 2;
          } else if Matches(source, cursor, "\r", length) || Matches(source, cursor, "\n", length) {
            newline := 1;
          }
          if newline > 0 {
            return PassSplice(length + newline);
          }
          return PassChar('\\', backslashLength);
        }
      }
      if allowTrigraphs && Matches(source, cursor, "??", off) && cursor + 2 < |source| {
        var trigraph := Trigraph(source[cursor + 2]);
        if trigraph.Some? {
          return PassChar(trigraph.value, off + 3);
        }
      }
      return PassChar(ch, off + 1);
    }

    /**
     * `TryParseEscaped(out result, offset, out nextOffset)`. The `goto
     * begin` after a line continuation is the loop; the places it has gone
     * back to are kept, and going back to one of them again is the endless
     * loop of the code, reported as a hang.
     */
    method TryParseEscaped(offset: nat) returns (r: Escaped)
      ensures r == CLexerSpec.TryParseEscaped(Opts(), source, cursor, offset)
    {
      var off := offset;
      var visited: set<nat> := {};
      while true
        invariant visited <= SpliceTargets(source, cursor)
        invariant EscapeFrom(Opts(), source, cursor, off, visited) == EscapeFrom(Opts(), source, cursor, offset, {})
        decreases |SpliceTargets(source, cursor) - visited|
      {
        var p := EscapePassAt(off);
        match p
        case PassEnd => return EndOfInput(off);
        case PassChar(c, next) => return Escaped(c, next);
        case PassHangs => return EscapeHangs;
        case PassSplice(target) =>
          PassSpliceTarget(Opts(), source, cursor, off);
          if target in visited {
            return EscapeHangs;
          }
          assert SpliceTargets(source, cursor) - (visited + {target}) < SpliceTargets(source, cursor) - visited;
          visited := visited + {target};
          off := target;
      }
    }

    /** `MatchesEscaped(char ch, offset, out nextOffset)`. */
    method MatchesEscapedChar(ch: char, offset: nat) returns (r: Matched)
      ensures r == MatchChar(Opts(), source, cursor, ch, offset)
    {
      var got := TryParseEscaped(offset);
      if got.Escaped? && got.c == ch {
        return Matched(got.next);
      } else if got.EscapeHangs? {
        return MatchHangs;
      }
      return Unmatched;
    }

    /**
     * `MatchesEscaped(string text, offset, out nextOffset)`: the characters
     * of `text` one after the other; the first that does not match makes
     * the whole fail.
     */
    method MatchesEscapedText(text: string, offset: nat) returns (r: Matched)
      ensures r == MatchText(Opts(), source, cursor, text, offset)
    {
      var off := offset;
      for i := 0 to |text|
        invariant MatchText(Opts(), source, cursor, text[i..], off) == MatchText(Opts(), source, cursor, text, offset)
      {
        assert text[i..][0] == text[i] && text[i..][1..] == text[i + 1..];
        var m := MatchesEscapedChar(text[i], off);
        if !m.Matched? {
          return m;
        }
        off := m.next;
      }
      assert text[|text|..] == [];
      return Matched(off);
    }

    /** `ParseEscaped(offset, out nextOffset)`: NUL at the end of input. */
    method ParseEscaped(offset: nat) returns (r: Escaped)
      ensures r == CLexerSpec.ParseEscaped(Opts(), source, cursor, offset)
    {
      r := TryParseEscaped(offset);
      if r.EndOfInput? {
        r := Escaped('\0', r.at);
      }
    }

    /**
     * The line-comment loop of `Next`, from `offset` just past `//`: escaped
     * characters up to a newline or the end of input. A splice can send
     * the offset back; the loop-head offsets are kept, and coming back to
     * one of them is the endless loop of the code, reported as a hang.
     */
    method LineComment(offset: nat) returns (r: CommentEnd)
      requires 1 <= offset <= Room(source, cursor) + 1
      ensures r == LineCommentFrom(Opts(), source, cursor, offset, {})
    {
      var off := offset;
      var visited: set<nat> := {};
      while true
        invariant 1 <= off <= Room(source, cursor) + 1
        invariant forall x | x in visited :: x <= Room(source, cursor) + 1
        invariant LineCommentFrom(Opts(), source, cursor, off, visited) == LineCommentFrom(Opts(), source, cursor, offset, {})
        decreases Room(source, cursor) + 2 - |visited|
      {
        if off in visited {
          return CommentHangs;
        }
        BoundedSetSize(visited + {off}, Room(source, cursor) + 2);
        var e := TryParseEscaped(off);
        match e
        case EscapeHangs => return CommentHangs;
        case EndOfInput(at) => return CommentEnd(at, '\0');
        case Escaped(c, next) =>
          if IsNewline(c) {
            return CommentEnd(next, c);
          }
          visited := visited + {off};
          off := next;
      }
    }

    /**
     * The block-comment loop of `Next`, from `offset` just past the opening
     * `/` and `*`: escaped characters up to a `*` followed by `/`, or the
     * end of input, with the loop-head offsets kept as above.
     */
    method BlockComment(offset: nat) returns (r: CommentEnd)
      requires 1 <= offset <= Room(source, cursor) + 1
      ensures r == BlockCommentFrom(Opts(), source, cursor, offset, {})
    {
      var off := offset;
      var visited: set<nat> := {};
      while true
        invariant 1 <= off <= Room(source, cursor) + 1
        invariant forall x | x in visited :: x <= Room(source, cursor) + 1
        invariant BlockCommentFrom(Opts(), source, cursor, off, visited) == BlockCommentFrom(Opts(), source, cursor, offset, {})
        decreases Room(source, cursor) + 2 - |visited|
      {
        if off in visited {
          return CommentHangs;
        }
        BoundedSetSize(visited + {off}, Room(source, cursor) + 2);
        var e := TryParseEscaped(off);
        match e
        case EscapeHangs => return CommentHangs;
        case EndOfInput(at) => return CommentEnd(at, '\0');
        case Escaped(c, next) =>
          if c == '*' {
            var m := MatchesEscapedChar('/', next);
            match m
            case Matched(after) => return CommentEnd(after, '/');
            case MatchHangs => return CommentHangs;
            case Unmatched =>
          }
          visited := visited + {off};
          off := next;
      }
    }

    /**
     * The two comment branches of `Next`, with `offset` just past a `/`:
     * a comment is skipped and counts as one column; None when neither
     * `//` nor the start of a block comment is there.
     */
    method Comment(offset: nat) returns (r: Option<Step>)
      requires 1 <= offset <= Room(source, cursor) + 1
      ensures r == CLexerSpec.Comment(Opts(), source, State(), offset)
    {
      var line := MatchesEscapedChar('/', offset);
      match line
      case MatchHangs => return Some(StepHangs);
      case Matched(next) =>
        var step := AfterLineComment(next);
        return Some(step);
      case Unmatched =>
        var block := MatchesEscapedChar('*', offset);
        match block
        case MatchHangs => return Some(StepHangs);
        case Unmatched => return None;
        case Matched(next) =>
          var step := AfterBlockComment(next);
          return Some(step);
    }

    /** The line-comment branch after `//`, with the `\n` that may follow a closing `\r`. */
    method AfterLineComment(next: nat) returns (r: Step)
      requires 1 <= next <= Room(source, cursor) + 1
      ensures r == CLexerSpec.AfterLineComment(Opts(), source, State(), next)
    {
      var end := LineComment(next);
      if end.CommentHangs? {
        return StepHangs;
      }
      var after := end.offset;
      if end.last == '\r' {
        var lf := MatchesEscapedChar('\n', after);
        if lf.MatchHangs? {
          return StepHangs;
        }
        if lf.Matched? {
          after := lf.next;
        }
      }
      return Again(LexState(cursor + after, logicalPosition.Advance()));
    }

    /** The block-comment branch, after the comment opens. */
    method AfterBlockComment(next: nat) returns (r: Step)
      requires 1 <= next <= Room(source, cursor) + 1
      ensures r == CLexerSpec.AfterBlockComment(Opts(), source, State(), next)
    {
      var end := BlockComment(next);
      if end.CommentHangs? {
        return StepHangs;
      }
      return Again(LexState(cursor + end.offset, logicalPosition.Advance()));
    }

    /**
     * An `if (MatchesEscaped(...)) return Make(...)` chain of the switch:
     * the continuations in order, the first that matches makes the token.
     */
    method FirstMatchOf(choices: seq<Choice>, fallback: Choice, offset: nat) returns (r: Lexeme)
      ensures r == FirstMatch(Opts(), source, cursor, offset, choices, fallback)
    {
      for i := 0 to |choices|
        invariant FirstMatch(Opts(), source, cursor, offset, choices[i..], fallback) ==
          FirstMatch(Opts(), source, cursor, offset, choices, fallback)
      {
        assert choices[i..][0] == choices[i] && choices[i..][1..] == choices[i + 1..];
        var m := MatchesEscapedText(choices[i].follow, offset);
        match m
        case Matched(next) => return Lexeme(choices[i].kind, choices[i].text, next);
        case MatchHangs => return LexemeHangs;
        case Unmatched =>
      }
      assert choices[|choices|..] == [];
      return Lexeme(fallback.kind, fallback.text, offset);
    }

    /** The `switch (peek)` of `Next`, with `offset` just past `peek`. */
    method Punctuate(peek: char, offset: nat) returns (r: Lexeme)
      ensures r == CLexerSpec.Punctuate(Opts(), source, cursor, peek, offset)
    {
      var table := Punctuators(peek);
      if table.Some? {
        r := FirstMatchOf(table.value.0, table.value.1, offset);
        return;
      }
      if peek != '.' {
        return Lexeme(Unknown, [peek], offset);
      }
      var dots := MatchesEscapedText("..", offset);
      match dots
      case Matched(next) => return Lexeme(Ellipsis, "...", next);
      case MatchHangs => return LexemeHangs;
      case Unmatched =>
        var after := ParseEscaped(offset);
        if after.Escaped? {
          if !classes.isDigit(after.c) {
            return Lexeme(Dot, ".", offset);
          }
          return Lexeme(Unknown, ".", offset);
        }
        return LexemeHangs;
    }

    /**
     * `TakeToken(type, length, logicalText)`: the logical range covers the
     * logical text from `LogicalPosition`, which moves to its end, and the
     * lexer base hands out the next `length` characters as the token's text.
     */
    method TakeToken(kind: CTokenType, length: nat, logicalText: string) returns (t: CToken)
      modifies this
      ensures (t, State()) == CLexerSpec.TakeToken(source, old(State()), kind, length, logicalText)
      ensures Opts() == old(Opts()) && allowDigraphs == old(allowDigraphs)
    {
      var startPosition := logicalPosition;
      logicalPosition := logicalPosition.Advance(|logicalText|);
      var logicalRange := Range(startPosition, logicalPosition);
      t := CToken(kind, Slice(source, cursor, length), logicalRange, logicalText);
      cursor := cursor + length;
    }

    /** One round of `Next` from `begin:`: the end of input makes the `End` token. */
    method Round() returns (r: Step)
      modifies this
      ensures r == CLexerSpec.Round(old(Opts()), source, old(State()))
      ensures !r.StepHangs? ==> State() == r.after
      ensures Opts() == old(Opts()) && allowDigraphs == old(allowDigraphs)
    {
      var first := TryParseEscaped(0);
      match first
      case EscapeHangs => return StepHangs;
      case EndOfInput(_) =>
        var token := TakeToken(End, 0, "");
        return Emit(token, State());
      case Escaped(peek, offset) =>
        r := AfterPeek(peek, offset);
    }

    /**
     * The round after `peek`, which ends at `offset`: a newline, a blank or
     * NUL, or a control character is skipped, moving the cursor and the
     * logical position; anything else is a comment or a token.
     */
    method AfterPeek(peek: char, offset: nat) returns (r: Step)
      requires cursor < |source| && 1 <= offset <= Room(source, cursor) + 1
      modifies this
      ensures r == CLexerSpec.AfterPeek(old(Opts()), source, old(State()), peek, offset)
      ensures !r.StepHangs? ==> State() == r.after
      ensures Opts() == old(Opts()) && allowDigraphs == old(allowDigraphs)
    {
      if peek == '\r' || peek == '\n' {
        var off := offset;
        if peek == '\r' {
          var lf := MatchesEscapedChar('\n', offset);
          if lf.MatchHangs? {
            return StepHangs;
          }
          if lf.Matched? {
            off := lf.next;
          }
        }
        logicalPosition := logicalPosition.Newline();
        cursor := cursor + off;
        return Again(State());
      }
      if classes.isWhiteSpace(peek) || peek == '\0' {
        logicalPosition := logicalPosition.Advance();
        cursor := cursor + offset;
        return Again(State());
      }
      if classes.isControl(peek) {
        cursor := cursor + offset;
        return Again(State());
      }
      r := LexToken(peek, offset);
    }

    /** A comment when `peek` is `/` and one starts there, else the token the switch makes. */
    method LexToken(peek: char, offset: nat) returns (r: Step)
      requires cursor < |source| && 1 <= offset <= Room(source, cursor) + 1
      modifies this
      ensures r == CLexerSpec.LexToken(old(Opts()), source, old(State()), peek, offset)
      ensures !r.StepHangs? ==> State() == r.after
      ensures Opts() == old(Opts()) && allowDigraphs == old(allowDigraphs)
    {
      if peek == '/' {
        var comment := Comment(offset);
        if comment.Some? {
          r := comment.value;
          if r.Again? {
            cursor, logicalPosition := r.after.cursor, r.after.logical;
          }
          return;
        }
      }
      var lexeme := Punctuate(peek, offset);
      if lexeme.LexemeHangs? {
        return StepHangs;
      }
      var token := TakeToken(lexeme.kind, lexeme.length, lexeme.text);
      return Emit(token, State());
    }

    /**
     * `Next()`: rounds from `begin:` until one makes a token, which it
     * returns with the lexer moved past it.
     */
    method Next() returns (r: Lexed)
      modifies this
      ensures r == NextToken(old(Opts()), source, old(State()))
      ensures r.Lexed? ==> State() == r.after
      ensures Opts() == old(Opts()) && allowDigraphs == old(allowDigraphs)
    {
      while true
        invariant Opts() == old(Opts()) && allowDigraphs == old(allowDigraphs)
        invariant NextToken(Opts(), source, State()) == NextToken(old(Opts()), source, old(State()))
        decreases if cursor <= |source| + 1 then |source| + 2 - cursor else 0
      {
        var step := Round();
        match step
        case StepHangs => return LexHangs;
        case Emit(token, after) => return Lexed(token, after);
        case Again(after) =>
      }
    }
  }
}
