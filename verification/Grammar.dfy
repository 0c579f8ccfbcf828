/**
 * The language of the parser: exactly which bytes complete a command at a command boundary, and as
 * what. Printed frames are in it (RoundTrip.dfy), and so is what stoi and the loop let through
 * besides: numbers in other spellings, and lines with the length -1, which are passed over.
 */
module Grammar {
  import opened EntryLog
  import opened Decimal
  import opened Protocol
  import opened RoundTrip
  import opened Chunking

  /** A length line with its argument, or one with the length -1, which has none. */
  datatype Token = Skip(line: string) | Item(line: string, arg: string)

  function LengthLine(line: string): string { "$" + line + [LF] }

  function TokenText(t: Token): string {
    match t
    case Skip(line) => LengthLine(line)
    case Item(line, arg) => LengthLine(line) + (arg + [LF])
  }

  predicate ValidToken(t: Token) {
    && LF !in t.line
    && Stoi(t.line + [LF]) == Some(match t case Skip(_) => -1 case Item(_, arg) => |arg|)
  }

  function Text(ts: seq<Token>): string {
    if ts == [] then "" else TokenText(ts[0]) + Text(ts[1..])
  }

  function ArgsOf(ts: seq<Token>): (args: seq<string>)
    ensures |args| <= |ts|
  {
    if ts == [] then [] else (match ts[0] case Skip(_) => [] case Item(_, arg) => [arg]) + ArgsOf(ts[1..])
  }

  /** Valid length lines, the last of them with an argument. */
  predicate ValidTokens(ts: seq<Token>) {
    && ts != [] && ts[|ts| - 1].Item?
    && forall i :: 0 <= i < |ts| ==> ValidToken(ts[i])
  }

  /** A command: the spelling of the number of arguments, the type byte, and the arguments. */
  datatype Sentence = Sentence(head: string, commandType: char, tokens: seq<Token>)

  predicate Valid(typed: bool, s: Sentence) {
    && LF !in s.head && Stoi(s.head + [LF]) == Some(|ArgsOf(s.tokens)|)
    && ValidTokens(s.tokens) && (typed ==> s.commandType != LF)
  }

  function HeadLine(head: string): string { "*" + head + [LF] }

  function SentenceText(typed: bool, s: Sentence): string {
    HeadLine(s.head) + ((if typed then TypeLine(s.commandType) else "") + Text(s.tokens))
  }

  // ---------------------------------------------------------------- one line

  /** Any line behind a one-byte mark, with whatever follows. */
  lemma LineSplit(mark: char, line: string, rest: string)
    requires LF !in line && mark != LF
    ensures var all := [mark] + line + [LF];
            var s := all + rest;
            && FirstLF(s) == |line| + 1 && s[0] == mark && Available(s)
            && s[1..|line| + 2] == line + [LF] && s[..|line| + 2] == all && s[|line| + 2..] == rest
  {
    var s := [mark] + line + [LF] + rest;
    FirstLFOfLine([mark] + line, rest);
    assert s[|line| + 1] == LF;
  }

  /** And the way back: an input with a line end, by its first line. */
  lemma FirstLine(s: string) returns (line: string, rest: string)
    requires Available(s) && s[0] != LF
    ensures LF !in line && s == [s[0]] + line + [LF] + rest
    ensures FirstLF(s) == |line| + 1 && s[1..|line| + 2] == line + [LF] && s[..|line| + 2] == [s[0]] + line + [LF]
    ensures rest == s[|line| + 2..]
  {
    var k := FirstLF(s);
    line, rest := s[1..k], s[k + 1..];
  }

  /** The length line at the front of the input. */
  lemma LengthTaken(p: Parser, line: string, rest: string)
    requires p.argvLen == -1 && p.input == LengthLine(line) + rest && LF !in line && Stoi(line + [LF]).Some?
    ensures Available(p.input)
    ensures ArgStep(p) == (Done, p.(input := rest, current := p.current + LengthLine(line),
                                    argvLen := Stoi(line + [LF]).value))
  {
    LineSplit('$', line, rest);
    assert LengthLine(line) == ['$'] + line + [LF];
  }

  // ---------------------------------------------------------------- arguments that are read

  lemma TextCons(t: Token, ts: seq<Token>)
    ensures Text([t] + ts) == TokenText(t) + Text(ts)
    ensures ArgsOf([t] + ts) == (match t case Skip(_) => [] case Item(_, arg) => [arg]) + ArgsOf(ts)
  {
    assert ([t] + ts)[1..] == ts;
  }

  lemma {:induction false} LastCounts(ts: seq<Token>)
    requires ts != [] && ts[|ts| - 1].Item?
    ensures ArgsOf(ts) != []
  {
    if |ts| > 1 { LastCounts(ts[1..]); }
  }

  /** The parser behind the tokens of a whole command. */
  function Read(p: Parser, ts: seq<Token>, rest: string): Parser {
    p.(input := rest, current := p.current + Text(ts), argv := p.argv + ArgsOf(ts), argc := 0, complete := true)
  }

  /** The parser behind one token. */
  function ReadOne(p: Parser, t: Token, rest: string): Parser {
    var q := p.(input := rest, current := p.current + TokenText(t));
    match t
    case Skip(_) => q
    case Item(_, arg) => q.(argv := p.argv + [arg], argc := p.argc - 1, complete := p.complete || p.argc == 1)
  }

  lemma SkipRead(p: Parser, line: string, rest: string)
    requires p.argvLen == -1 && p.input == LengthLine(line) + rest && ValidToken(Skip(line))
    ensures Args(p) == Args(p.(input := rest, current := p.current + LengthLine(line)))
  {
    LengthTaken(p, line, rest);
    ArgsUnfold(p);
  }

  lemma ItemRead(p: Parser, line: string, arg: string, rest: string)
    requires p.argvLen == -1 && p.input == LengthLine(line) + (arg + [LF] + rest) && ValidToken(Item(line, arg))
    ensures var q := p.(input := rest, current := p.current + LengthLine(line) + (arg + [LF]), argv := p.argv + [arg],
                        argc := p.argc - 1, complete := p.complete || p.argc == 1);
            Args(p) == if p.argc == 1 then (Done, q) else Args(q)
  {
    LengthTaken(p, line, arg + [LF] + rest);
    ArgsUnfold(p);
    var q := ArgStep(p).1;
    RoundTrip.PartRead(q, arg, rest);
    ArgsUnfold(q);
  }

  lemma TokenRead(p: Parser, t: Token, rest: string)
    requires p.argvLen == -1 && p.input == TokenText(t) + rest && ValidToken(t)
    ensures Args(p) == if t.Item? && p.argc == 1 then (Done, ReadOne(p, t, rest)) else Args(ReadOne(p, t, rest))
  {
    if t.Skip? {
      SkipRead(p, t.line, rest);
    } else {
      Assoc(LengthLine(t.line), t.arg + [LF], rest);
      ItemRead(p, t.line, t.arg, rest);
      Assoc(p.current, LengthLine(t.line), t.arg + [LF]);
    }
  }

  lemma ReadCons(p: Parser, t: Token, ts: seq<Token>, rest: string)
    ensures Read(ReadOne(p, t, Text(ts) + rest), ts, rest) == Read(p, [t] + ts, rest)
  {
    TextCons(t, ts);
    Assoc(p.current, TokenText(t), Text(ts));
    if t.Skip? {
      assert [] + ArgsOf(ts) == ArgsOf(ts);
    } else {
      assert p.argv + [t.arg] + ArgsOf(ts) == p.argv + ([t.arg] + ArgsOf(ts));
    }
  }

  lemma ReadLast(p: Parser, t: Token, rest: string)
    requires t.Item? && p.argc == 1
    ensures ReadOne(p, t, rest) == Read(p, [t], rest)
  {
    TextCons(t, []);
    assert [t] + [] == [t] && TokenText(t) + "" == TokenText(t) && [t.arg] + [] == [t.arg];
  }

  lemma ValidCons(t: Token, ts: seq<Token>)
    requires ts != []
    ensures ValidTokens([t] + ts) <==> ValidToken(t) && ValidTokens(ts)
  {
    var all := [t] + ts;
    assert all[|all| - 1] == ts[|ts| - 1];
    if ValidTokens(all) {
      assert ValidToken(all[0]);
      forall i | 0 <= i < |ts| ensures ValidToken(ts[i]) { assert all[i + 1] == ts[i]; }
    }
    if ValidToken(t) && ValidTokens(ts) {
      forall i | 0 <= i < |all| ensures ValidToken(all[i]) { assert i > 0 ==> all[i] == ts[i - 1]; }
    }
  }

  /** The last token completes the command. */
  lemma LastRead(p: Parser, t: Token, rest: string)
    requires p.argvLen == -1 && ValidToken(t) && t.Item? && p.argc == 1 && p.input == Text([t]) + rest
    ensures Args(p) == (Done, Read(p, [t], rest))
  {
    TextCons(t, []);
    assert [t] + [] == [t] && TokenText(t) + "" == TokenText(t);
    TokenRead(p, t, rest);
    ReadLast(p, t, rest);
  }

  /** A token before others is read, and the loop goes on. */
  lemma FirstRead(p: Parser, t: Token, ts: seq<Token>, rest: string)
    requires p.argvLen == -1 && ValidToken(t) && ValidTokens(ts) && p.argc == |ArgsOf([t] + ts)|
    requires p.input == Text([t] + ts) + rest
    ensures var q := ReadOne(p, t, Text(ts) + rest);
            && Args(p) == Args(q) && q.argc == |ArgsOf(ts)| && Read(q, ts, rest) == Read(p, [t] + ts, rest)
  {
    TextCons(t, ts);
    LastCounts(ts);
    Assoc(TokenText(t), Text(ts), rest);
    TokenRead(p, t, Text(ts) + rest);
    ReadCons(p, t, ts, rest);
  }

  lemma {:induction false} TokensRead(p: Parser, ts: seq<Token>, rest: string)
    requires p.argvLen == -1 && ValidTokens(ts) && p.argc == |ArgsOf(ts)| && p.input == Text(ts) + rest
    ensures Args(p) == (Done, Read(p, ts, rest))
    decreases |ts|
  {
    if |ts| == 1 {
      assert ts == [ts[0]];
      LastRead(p, ts[0], rest);
    } else {
      var t, more := ts[0], ts[1..];
      assert ts == [t] + more;
      ValidCons(t, more);
      FirstRead(p, t, more, rest);
      TokensRead(ReadOne(p, t, Text(more) + rest), more, rest);
    }
  }

  // ---------------------------------------------------------------- arguments that have been read

  /** The loop completes the command. */
  predicate Completes(p: Parser) {
    p.argvLen == -1 && p.argc >= 1 && !p.complete && Args(p).0 == Done && Args(p).1.complete
  }

  /** The tokens of a command at the front of an input. */
  ghost predicate Spelled(input: string, argc: int, ts: seq<Token>, rest: string) {
    ValidTokens(ts) && argc == |ArgsOf(ts)| && input == Text(ts) + rest
  }

  lemma SpelledCons(t: Token, input: string, argc: int, ts: seq<Token>, rest: string)
    requires ValidToken(t) && Spelled(input, argc, ts, rest)
    ensures Spelled(TokenText(t) + input, argc + (if t.Item? then 1 else 0), [t] + ts, rest)
  {
    TextCons(t, ts);
    ValidCons(t, ts);
    Assoc(TokenText(t), Text(ts), rest);
  }

  lemma SpelledLast(t: Token, rest: string)
    requires ValidToken(t) && t.Item?
    ensures Spelled(TokenText(t) + rest, 1, [t], rest)
  {
    TextCons(t, []);
    assert [t] + [] == [t] && TokenText(t) + "" == TokenText(t);
  }

  /** The front of an input that is completed: a length line, and what it leaves to the loop. */
  lemma LineFound(p: Parser) returns (line: string, after: string)
    requires Completes(p)
    ensures LF !in line && p.input == LengthLine(line) + after && Stoi(line + [LF]).Some? && |after| < |p.input|
    ensures var q := p.(input := after, current := p.current + LengthLine(line), argvLen := Stoi(line + [LF]).value);
            Args(p) == Args(q)
  {
    ArgsUnfold(p);
    line, after := FirstLine(p.input);
    LengthTaken(p, line, after);
  }

  /** With a length that is not -1 the argument follows. */
  lemma ItemFound(q: Parser) returns (arg: string, rest: string)
    requires q.argvLen != -1 && q.argc >= 1 && !q.complete && Args(q).0 == Done && Args(q).1.complete
    ensures q.argvLen == |arg| && q.input == arg + [LF] + rest
    ensures q.argc > 1 ==> Completes(q.(input := rest, current := q.current + (arg + [LF]), argv := q.argv + [arg],
                                        argvLen := -1, argc := q.argc - 1))
  {
    ArgsUnfold(q);
    arg, rest := ArgFound(q);
    RoundTrip.PartRead(q, arg, rest);
  }

  /** What the loop has completed, it has read as valid tokens. */
  lemma {:induction false} TokensFound(p: Parser) returns (ts: seq<Token>, rest: string)
    requires Completes(p)
    ensures Spelled(p.input, p.argc, ts, rest)
    decreases |p.input|
  {
    var line, after := LineFound(p);
    var n := Stoi(line + [LF]).value;
    var q := p.(input := after, current := p.current + LengthLine(line), argvLen := n);
    if n == -1 {
      ts, rest := TokensFound(q);
      SpelledCons(Skip(line), after, p.argc, ts, rest);
      ts := [Skip(line)] + ts;
      return;
    }
    var arg, left := ItemFound(q);
    Assoc(LengthLine(line), arg + [LF], left);
    if p.argc == 1 {
      SpelledLast(Item(line, arg), left);
      return [Item(line, arg)], left;
    }
    ts, rest := TokensFound(q.(input := left, current := q.current + (arg + [LF]), argv := q.argv + [arg],
                               argvLen := -1, argc := q.argc - 1));
    SpelledCons(Item(line, arg), left, p.argc - 1, ts, rest);
    ts := [Item(line, arg)] + ts;
  }

  lemma ArgFound(q: Parser) returns (arg: string, rest: string)
    requires q.argvLen != -1 && Available(q.input) && ArgStep(q).0 == Done
    ensures q.argvLen == |arg| && q.input == arg + [LF] + rest
    ensures ArgStep(q).1.input == rest
  {
    arg, rest := q.input[..q.argvLen], q.input[q.argvLen + 1..];
  }

  // ---------------------------------------------------------------- a whole command

  lemma HeadRead(p: Parser, head: string, more: string)
    requires Boundary(p) && p.input == HeadLine(head) + more && LF !in head && Available(more)
    requires Stoi(head + [LF]).Some? && Stoi(head + [LF]).value >= 1
    ensures var q := p.(input := more, current := HeadLine(head), argc := Stoi(head + [LF]).value);
            Available(p.input) && Resolve(p) == AfterHeader(q)
  {
    LineSplit('*', head, more);
    assert HeadLine(head) == ['*'] + head + [LF] && p.current + HeadLine(head) == HeadLine(head);
  }

  lemma TypeRead(q: Parser, t: char, more: string)
    requires q.hasType && q.commandType == NUL && q.input == TypeLine(t) + more && t != LF && Available(more)
    ensures Available(q.input)
    ensures TypeStage(q) == Proceed(q.(input := more, current := q.current + TypeLine(t), commandType := t))
  {
    LineSplit('#', [t], more);
    assert TypeLine(t) == ['#'] + [t] + [LF];
  }

  lemma TextAvailable(ts: seq<Token>, rest: string)
    requires ValidTokens(ts)
    ensures Available(Text(ts) + rest)
  {
    var text := Text(ts) + rest;
    var first := LengthLine(ts[0].line);
    assert text[|first| - 1] == first[|first| - 1] == LF;
  }

  /** The parser behind a whole command. */
  function Completed(p: Parser, s: Sentence, rest: string): Parser {
    p.(input := rest, current := SentenceText(p.hasType, s), argc := 0, argv := ArgsOf(s.tokens), complete := true,
       commandType := if p.hasType then s.commandType else NUL)
  }

  lemma AvailableBehind(a: string, b: string)
    requires Available(b)
    ensures Available(a + b)
  {
    assert (a + b)[|a| + FirstLF(b)] == LF;
  }

  /** The parser behind the lines before the arguments. */
  function Begun(p: Parser, s: Sentence, rest: string): Parser {
    var t := if p.hasType then TypeLine(s.commandType) else "";
    p.(input := Text(s.tokens) + rest, current := HeadLine(s.head) + t, argc := |ArgsOf(s.tokens)|,
       commandType := if p.hasType then s.commandType else NUL)
  }

  lemma RestRead(q: Parser, t: char, body: string)
    requires q.commandType == NUL && (q.hasType ==> t != LF) && Available(body)
    requires q.input == (if q.hasType then TypeLine(t) else "") + body
    ensures Available(q.input)
    ensures AfterHeader(q)
            == ArgsStage(q.(input := body, current := q.current + (if q.hasType then TypeLine(t) else ""),
                            commandType := if q.hasType then t else NUL))
  {
    if q.hasType {
      TypeRead(q, t, body);
    } else {
      assert "" + body == body && q.current + "" == q.current;
    }
  }

  lemma BeginRead(p: Parser, s: Sentence, rest: string)
    requires Boundary(p) && Valid(p.hasType, s) && p.input == SentenceText(p.hasType, s) + rest
    ensures Resolve(p) == ArgsStage(Begun(p, s, rest))
  {
    var t := if p.hasType then TypeLine(s.commandType) else "";
    var body := Text(s.tokens) + rest;
    TextAvailable(s.tokens, rest);
    LastCounts(s.tokens);
    AvailableBehind(t, body);
    Assoc(HeadLine(s.head), t + Text(s.tokens), rest);
    Assoc(t, Text(s.tokens), rest);
    HeadRead(p, s.head, t + body);
    RestRead(p.(input := t + body, current := HeadLine(s.head), argc := |ArgsOf(s.tokens)|), s.commandType, body);
  }

  /** A valid command is read as what it says, and what follows it stays in the buffer. */
  lemma SentenceCompletes(p: Parser, s: Sentence, rest: string)
    requires Boundary(p) && Valid(p.hasType, s) && p.input == SentenceText(p.hasType, s) + rest
    ensures Resolve(p) == (Done, Wrap(Completed(p, s, rest)))
  {
    BeginRead(p, s, rest);
    var q := Begun(p, s, rest);
    TokensRead(q, s.tokens, rest);
    Assoc(HeadLine(s.head), if p.hasType then TypeLine(s.commandType) else "", Text(s.tokens));
    assert Read(q, s.tokens, rest) == Completed(p, s, rest);
  }

  lemma HeadFound(p: Parser) returns (head: string, more: string)
    requires Boundary(p) && Resolve(p).0 == Done && Resolve(p).1.complete
    ensures LF !in head && Stoi(head + [LF]).Some? && Stoi(head + [LF]).value >= 1 && Available(more)
    ensures p.input == HeadLine(head) + more
    ensures Resolve(p) == AfterHeader(p.(input := more, current := HeadLine(head), argc := Stoi(head + [LF]).value))
  {
    HeaderEats(p);
    head, more := FirstLine(p.input);
    HeadRead(p, head, more);
  }

  lemma TypeFound(q: Parser) returns (t: char, more: string)
    requires q.hasType && q.commandType == NUL && !q.complete && Available(q.input)
    requires AfterHeader(q).0 == Done && AfterHeader(q).1.complete
    ensures t != LF && q.input == TypeLine(t) + more && Available(more)
    ensures AfterHeader(q) == ArgsStage(q.(input := more, current := q.current + TypeLine(t), commandType := t))
  {
    var line, after := FirstLine(q.input);
    t, more := line[0], after;
    TypeRead(q, t, more);
  }

  /** Behind the first line of what is completed: the type line, if the mode has one, and the arguments. */
  lemma BodyFound(q: Parser) returns (t: char, ts: seq<Token>, rest: string)
    requires q.commandType == NUL && !q.complete && q.argvLen == -1 && q.argc >= 1 && Available(q.input)
    requires AfterHeader(q).0 == Done && AfterHeader(q).1.complete
    ensures q.hasType ==> t != LF
    ensures ValidTokens(ts) && q.argc == |ArgsOf(ts)|
    ensures q.input == (if q.hasType then TypeLine(t) else "") + (Text(ts) + rest)
  {
    if q.hasType {
      var after;
      t, after := TypeFound(q);
      ts, rest := TokensFound(q.(input := after, current := q.current + TypeLine(t), commandType := t));
    } else {
      t := NUL;
      ts, rest := TokensFound(q);
      assert "" + (Text(ts) + rest) == Text(ts) + rest;
    }
  }

  /** What completes a command at a command boundary is a valid command, and whatever follows it. */
  lemma SentenceFound(p: Parser) returns (s: Sentence, rest: string)
    requires Boundary(p) && Resolve(p).0 == Done && Resolve(p).1.complete
    ensures Valid(p.hasType, s) && p.input == SentenceText(p.hasType, s) + rest
  {
    var head, more := HeadFound(p);
    var t, ts, left := BodyFound(p.(input := more, current := HeadLine(head), argc := Stoi(head + [LF]).value));
    var typeLine := if p.hasType then TypeLine(t) else "";
    Assoc(typeLine, Text(ts), left);
    Assoc(HeadLine(head), typeLine + Text(ts), left);
    return Sentence(head, t, ts), left;
  }

  /** The input starts with a valid command. */
  ghost predicate Starts(typed: bool, input: string) {
    exists s: Sentence, rest: string :: Valid(typed, s) && input == SentenceText(typed, s) + rest
  }

  /** One call completes a command at a boundary exactly if the input starts with a valid one. */
  lemma CompletesExactly(p: Parser)
    requires Boundary(p)
    ensures Resolve(p).0 == Done && Resolve(p).1.complete <==> Starts(p.hasType, p.input)
  {
    if Resolve(p).0 == Done && Resolve(p).1.complete {
      var s, rest := SentenceFound(p);
    }
    if Starts(p.hasType, p.input) {
      var s: Sentence, rest: string :| Valid(p.hasType, s) && p.input == SentenceText(p.hasType, s) + rest;
      SentenceCompletes(p, s, rest);
    }
  }
}
