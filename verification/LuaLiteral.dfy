/**
  Quoting arbitrary text as a Lua long-bracket literal (src/LuaLiteral.cpp),
  against a lexer for such literals: section 2.1 of the Lua 5.1 Reference Manual,
  with the Lua 5.1 rules on line ends and on reopening a level-0 literal.
*/
module LuaLiteral {

  // ---------------------------------------------------------------- the quoter

  function Run(n: nat): (s: string)
    ensures |s| == n
  {
    if n == 0 then "" else "=" + Run(n - 1)
  }

  function Opener(level: nat): string { "[" + Run(level) + "[" }

  function Closer(level: nat): string { "]" + Run(level) + "]" }

  /** What the text must not end with: the closer appended to it would complete this one character early. */
  function HalfCloser(level: nat): string { "]" + Run(level) }

  predicate Contains(text: string, pattern: string) {
    pattern <= text || (text != "" && Contains(text[1..], pattern))
  }

  predicate EndsWith(text: string, pattern: string) {
    |pattern| <= |text| && text[|text| - |pattern|..] == pattern
  }

  predicate Unsafe(text: string, level: nat) {
    Contains(text, Closer(level)) || Contains(text, Opener(level)) || EndsWith(text, HalfCloser(level))
  }

  function QuoteAt(text: string, level: nat): string {
    Opener(level) + "\n" + text + Closer(level)
  }

  lemma {:induction false} ContainsFits(text: string, pattern: string)
    requires Contains(text, pattern)
    ensures |pattern| <= |text|
  {
    if !(pattern <= text) { ContainsFits(text[1..], pattern); }
  }

  lemma {:induction false} UnsafeFits(text: string, level: nat)
    requires Unsafe(text, level)
    ensures level < |text|
  {
    if Contains(text, Closer(level)) { ContainsFits(text, Closer(level)); }
    else if Contains(text, Opener(level)) { ContainsFits(text, Opener(level)); }
  }

  /** Escalates the level until the text is safe at it. */
  method Quote(text: string) returns (literal: string, level: nat)
    ensures literal == QuoteAt(text, level)
    ensures !Unsafe(text, level) && forall k: nat :: k < level ==> Unsafe(text, k)
    ensures level <= |text|
  {
    var equals := "";
    level := 0;
    while Contains(text, "]" + equals + "]") || Contains(text, "[" + equals + "[") || EndsWith(text, "]" + equals)
      invariant equals == Run(level) && level <= |text|
      invariant forall k: nat :: k < level ==> Unsafe(text, k)
      decreases |text| - level
    {
      UnsafeFits(text, level);
      RunSnoc(level);
      equals := equals + "=";
      level := level + 1;
    }
    literal := "[" + equals + "[\n" + text + "]" + equals + "]";
    assert literal == QuoteAt(text, level);
  }

  lemma {:induction false} RunSnoc(n: nat)
    ensures Run(n) + "=" == Run(n + 1)
  {
    if n > 0 {
      RunSnoc(n - 1);
      assert Run(n) + "=" == "=" + (Run(n - 1) + "=");
    }
  }

  // ---------------------------------------------------------------- the lexer

  datatype Lexed = Token(text: string, rest: string) | Malformed

  function Prepend(prefix: string, t: Lexed): Lexed {
    match t
    case Token(text, rest) => Token(prefix + text, rest)
    case Malformed => Malformed
  }

  predicate IsNewline(c: char) { c == '\n' || c == '\r' }

  /** The number of '=' the input starts with. */
  function CountEquals(s: string): (n: nat)
    ensures n <= |s| && s[..n] == Run(n) && (n < |s| ==> s[n] != '=')
  {
    if s == "" || s[0] != '=' then 0 else 1 + CountEquals(s[1..])
  }

  /** One line end: a newline character, or two different ones in a row. */
  function SkipNewline(s: string): string
    requires s != "" && IsNewline(s[0])
  {
    if |s| > 1 && IsNewline(s[1]) && s[1] != s[0] then s[2..] else s[1..]
  }

  /** The contents of a long literal of the given level, up to and including its closing bracket. */
  function ReadLong(s: string, level: nat): Lexed
    decreases |s|
  {
    if s == "" then Malformed
    else if s[0] == '[' then
      var n := CountEquals(s[1..]);
      var after := s[1 + n..];
      if n == level && after != "" && after[0] == '[' then
        if level == 0 then Malformed else Prepend(s[..n + 2], ReadLong(after[1..], level))
      else Prepend(s[..n + 1], ReadLong(after, level))
    else if s[0] == ']' then
      var n := CountEquals(s[1..]);
      var after := s[1 + n..];
      if n == level && after != "" && after[0] == ']' then Token("", after[1..])
      else Prepend(s[..n + 1], ReadLong(after, level))
    else if IsNewline(s[0]) then Prepend("\n", ReadLong(SkipNewline(s), level))
    else Prepend([s[0]], ReadLong(s[1..], level))
  }

  /** A whole literal: opening bracket, one line end that is dropped, contents, closing bracket. */
  function Lex(s: string): Lexed {
    if s == "" || s[0] != '[' then Malformed
    else
      var n := CountEquals(s[1..]);
      var after := s[1 + n..];
      if after == "" || after[0] != '[' then Malformed
      else
        var body := after[1..];
        ReadLong(if body != "" && IsNewline(body[0]) then SkipNewline(body) else body, n)
  }

  // ---------------------------------------------------------------- round trip

  /** What a level needs for Lua to read the text back; weaker than the quoter's test above level 0. */
  predicate Readable(text: string, level: nat) {
    && !Contains(text, Closer(level))
    && !EndsWith(text, HalfCloser(level))
    && (level == 0 ==> !Contains(text, Opener(0)))
  }

  lemma {:induction false} CountRun(n: nat, tail: string)
    requires tail == "" || tail[0] != '='
    ensures CountEquals(Run(n) + tail) == n
  {
    if n == 0 {
      assert Run(0) + tail == tail;
    } else {
      CountRun(n - 1, tail);
      var s := Run(n) + tail;
      assert s[0] == '=' && s[1..] == Run(n - 1) + tail;
    }
  }

  lemma {:induction false} CountThrough(t: string, tail: string)
    requires tail != "" && tail[0] != '='
    ensures CountEquals(t + tail) == CountEquals(t)
  {
    if t == "" {
      assert t + tail == tail;
    } else if t[0] == '=' {
      CountThrough(t[1..], tail);
      assert (t + tail)[1..] == t[1..] + tail;
    }
  }

  /** An occurrence cannot start where the first character does not match. */
  lemma {:induction false} ContainsSkip(t: string, i: nat, pattern: string)
    requires i <= |t| && pattern != "" && (forall k :: 0 <= k < i ==> t[k] != pattern[0])
    ensures Contains(t, pattern) == Contains(t[i..], pattern)
  {
    if i == 0 {
      assert t[0..] == t;
    } else {
      assert t[0] != pattern[0];
      ContainsSkip(t[1..], i - 1, pattern);
      assert t[1..][i - 1..] == t[i..];
    }
  }

  lemma {:induction false} EndsWithSuffix(t: string, i: nat, pattern: string)
    requires i <= |t|
    ensures EndsWith(t[i..], pattern) ==> EndsWith(t, pattern)
    ensures EndsWith(t, pattern) && |pattern| <= |t| - i ==> EndsWith(t[i..], pattern)
  {
    if |pattern| <= |t| - i {
      assert t[i..][|t| - i - |pattern|..] == t[|t| - |pattern|..];
    }
  }

  /** The text does not begin with something Lua would take for the end or a forbidden reopening. */
  predicate Starts(t: string, level: nat) {
    && !(Closer(level) <= t)
    && t != HalfCloser(level)
    && (level == 0 ==> !(Opener(0) <= t))
  }

  /** Dropping a prefix whose bracket is not the start of a closer neither gains nor loses readability. */
  lemma {:induction false} ReadableSuffix(t: string, i: nat, level: nat)
    requires 0 < i <= |t|
    requires forall k :: 1 <= k < i ==> t[k] != ']' && t[k] != '['
    ensures Readable(t, level) ==> Readable(t[i..], level)
    ensures Readable(t[i..], level) && Starts(t, level) ==> Readable(t, level)
  {
    assert t[1..][i - 1..] == t[i..];
    ContainsSkip(t[1..], i - 1, Closer(level));
    ContainsSkip(t[1..], i - 1, Opener(0));
    EndsWithSuffix(t, i, HalfCloser(level));
    if EndsWith(t, HalfCloser(level)) && |HalfCloser(level)| > |t| - i {
      assert t[|t| - |HalfCloser(level)|] == ']';
    }
  }

  /** A bracket and the '=' after it, seen through the text they are part of. */
  lemma {:induction false} BracketPrefix(t: string, tail: string)
    requires t != "" && tail != "" && tail[0] == ']'
    ensures var n := CountEquals(t[1..]);
            && CountEquals((t + tail)[1..]) == n
            && (t + tail)[..n + 1] == t[..n + 1] && (t + tail)[n + 1..] == t[n + 1..] + tail
            && t[1..n + 1] == Run(n)
  {
    CountThrough(t[1..], tail);
    assert (t + tail)[1..] == t[1..] + tail;
    assert t[1..][..CountEquals(t[1..])] == t[1..CountEquals(t[1..]) + 1];
  }

  /** ReadLong at a bracket that neither closes nor reopens. */
  lemma {:induction false} ReadPlain(s: string, level: nat)
    requires s != "" && (s[0] == '[' || s[0] == ']')
    requires var n := CountEquals(s[1..]); !(n == level && n + 1 < |s| && s[n + 1] == s[0])
    ensures var n := CountEquals(s[1..]); ReadLong(s, level) == Prepend(s[..n + 1], ReadLong(s[n + 1..], level))
  {
  }

  /** ReadLong at a bracket of the literal's own level. */
  lemma {:induction false} ReadMatch(s: string, level: nat)
    requires s != "" && (s[0] == '[' || s[0] == ']')
    requires CountEquals(s[1..]) == level && level + 1 < |s| && s[level + 1] == s[0]
    ensures s[0] == ']' ==> ReadLong(s, level) == Token("", s[level + 2..])
    ensures s[0] == '[' && level == 0 ==> ReadLong(s, level) == Malformed
    ensures s[0] == '[' && level > 0 ==>
              ReadLong(s, level) == Prepend(s[..level + 2], ReadLong(s[level + 2..], level))
  {
    assert s[1 + level..][1..] == s[level + 2..];
  }

  lemma {:induction false} PrependExact(prefix: string, x: Lexed, text: string, rest: string)
    ensures Prepend(prefix, x) == Token(prefix + text, rest) <==> x == Token(text, rest)
  {
    if x.Token? {
      assert (prefix + x.text)[|prefix|..] == x.text;
      assert (prefix + text)[|prefix|..] == text;
    }
  }

  lemma {:induction false} RunChars(n: nat)
    ensures forall k :: 0 <= k < n ==> Run(n)[k] == '='
  {
    if n > 0 { RunChars(n - 1); }
  }

  lemma {:induction false} RunPrefix(s: string, k: nat, c: char)
    requires c != '=' && Run(k) + [c] <= s
    ensures CountEquals(s) == k && s[k] == c
  {
    assert s == Run(k) + s[k..];
    assert s[k..][0] == c;
    CountRun(k, s[k..]);
  }

  /** What follows the text in a literal: its closer and whatever comes after the literal. */
  function After(level: nat, rest: string): (s: string)
    ensures s != "" && s[0] == ']'
  {
    Closer(level) + rest
  }

  lemma {:induction false} PlainStep(t: string, tail: string, level: nat)
    requires t != "" && (t[0] == '[' || t[0] == ']') && tail != "" && tail[0] == ']'
    requires var n := CountEquals(t[1..]); !(n == level && (t + tail)[n + 1] == t[0])
    ensures var n := CountEquals(t[1..]);
            ReadLong(t + tail, level) == Prepend(t[..n + 1], ReadLong(t[n + 1..] + tail, level))
  {
    BracketPrefix(t, tail);
    ReadPlain(t + tail, level);
  }

  lemma {:induction false} ReopenStep(t: string, tail: string, level: nat)
    requires t != "" && t[0] == '[' && tail != "" && tail[0] == ']' && level > 0
    requires CountEquals(t[1..]) == level && level + 1 < |t| && t[level + 1] == '['
    ensures ReadLong(t + tail, level) == Prepend(t[..level + 2], ReadLong(t[level + 2..] + tail, level))
  {
    BracketPrefix(t, tail);
    ReadMatch(t + tail, level);
    assert (t + tail)[level + 2..] == t[level + 2..] + tail;
  }

  /** Lua reads the contents back, up to the closer and no further, exactly when the level is readable. */
  lemma {:induction false} ReadsBack(t: string, level: nat, rest: string)
    requires '\r' !in t
    ensures ReadLong(t + After(level, rest), level) == Token(t, rest) <==> Readable(t, level)
    decreases |t|, 1
  {
    var tail := After(level, rest);
    if t == "" {
      CloserCloses(level, rest);
    } else if t[0] == '[' || t[0] == ']' {
      ReadsBackBracket(t, level, rest);
    } else {
      assert (t + tail)[1..] == t[1..] + tail;
      ReadsBack(t[1..], level, rest);
      PrependExact([t[0]], ReadLong(t[1..] + tail, level), t[1..], rest);
      ReadableSuffix(t, 1, level);
      assert IsNewline(t[0]) ==> SkipNewline(t + tail) == (t + tail)[1..];
      assert t == [t[0]] + t[1..];
    }
  }

  lemma {:induction false} CloserCloses(level: nat, rest: string)
    ensures ReadLong("" + After(level, rest), level) == Token("", rest)
    ensures Readable("", level)
  {
    var s := "" + After(level, rest);
    CountRun(level, "]" + rest);
    assert s[1..] == Run(level) + ("]" + rest);
    assert s[1 + level..] == "]" + rest;
  }

  lemma {:induction false} ReadsBackBracket(t: string, level: nat, rest: string)
    requires '\r' !in t && t != "" && (t[0] == '[' || t[0] == ']')
    ensures ReadLong(t + After(level, rest), level) == Token(t, rest) <==> Readable(t, level)
    decreases |t|, 0
  {
    var tail, n := After(level, rest), CountEquals(t[1..]);
    if n == level && (t + tail)[n + 1] == t[0] {
      if t[0] == '[' && level > 0 {
        ReopenStep(t, tail, level);
        var v := t[level + 2..];
        ReadsBack(v, level, rest);
        PrependExact(t[..level + 2], ReadLong(v + tail, level), v, rest);
        assert t == t[..level + 2] + v;
        ReadablePastOpener(t, level);
      } else {
        BracketPrefix(t, tail);
        ReadMatch(t + tail, level);
        Shut(t, level, tail);
      }
    } else {
      PlainStep(t, tail, level);
      var u := t[n + 1..];
      ReadsBack(u, level, rest);
      PrependExact(t[..n + 1], ReadLong(u + tail, level), u, rest);
      assert t == t[..n + 1] + u;
      NotAtStart(t, level, tail);
      ReadablePastRun(t, level);
    }
  }

  lemma {:induction false} ReadablePastRun(t: string, level: nat)
    requires t != "" && Starts(t, level)
    ensures Readable(t, level) <==> Readable(t[CountEquals(t[1..]) + 1..], level)
  {
    var n := CountEquals(t[1..]);
    RunChars(n);
    assert forall k :: 1 <= k < n + 1 ==> t[k] == t[1..][..n][k - 1];
    ReadableSuffix(t, n + 1, level);
  }

  lemma {:induction false} ReadablePastOpener(t: string, level: nat)
    requires t != "" && t[0] == '[' && level > 0
    requires CountEquals(t[1..]) == level && level + 1 < |t| && t[level + 1] == '['
    ensures Readable(t, level) <==> Readable(t[level + 2..], level)
  {
    var u, v := t[level + 1..], t[level + 2..];
    assert u[1..] == v && Starts(u, level) && Starts(t, level);
    ReadableSuffix(u, 1, level);
    ReadablePastRun(t, level);
  }

  /** A text that begins with a bracket Lua acts on at this level is not readable. */
  lemma {:induction false} Shut(t: string, level: nat, tail: string)
    requires t != "" && (t[0] == ']' || (t[0] == '[' && level == 0)) && tail != "" && tail[0] == ']'
    requires CountEquals(t[1..]) == level && (t + tail)[level + 1] == t[0]
    ensures !Readable(t, level)
  {
    assert t[1..][..level] == Run(level);
    if |t| == level + 1 {
      assert t[0] == ']' && t == HalfCloser(level);
    } else if t[0] == ']' {
      assert t[..level + 2] == Closer(level);
    } else {
      assert t[..2] == Opener(0);
    }
  }

  lemma {:induction false} NotAtStart(t: string, level: nat, tail: string)
    requires t != "" && (t[0] == '[' || t[0] == ']') && tail != "" && tail[0] == ']'
    requires var n := CountEquals(t[1..]); !(n == level && (t + tail)[n + 1] == t[0])
    ensures Starts(t, level)
  {
    if Closer(level) <= t {
      RunPrefix(t[1..], level, ']');
    }
    CountRun(level, "");
    assert HalfCloser(level)[1..] == Run(level) + "";
    if level == 0 && Opener(0) <= t {
      RunPrefix(t[1..], 0, '[');
    }
  }

  /** A quoted text opens a literal of its level, and its first newline is dropped. */
  lemma {:induction false} LexOpens(text: string, level: nat, rest: string)
    requires text == "" || text[0] != '\r'
    ensures Lex(QuoteAt(text, level) + rest) == ReadLong(text + After(level, rest), level)
  {
    var s, contents := QuoteAt(text, level) + rest, text + After(level, rest);
    assert s == Opener(level) + "\n" + contents;
    LexHead(s, level, contents);
  }

  lemma {:induction false} LexHead(s: string, level: nat, contents: string)
    requires s == Opener(level) + "\n" + contents && contents != "" && contents[0] != '\r'
    ensures Lex(s) == ReadLong(contents, level)
  {
    var body := "\n" + contents;
    assert s[1..] == Run(level) + ("[" + body);
    CountRun(level, "[" + body);
    assert s[1 + level..] == "[" + body;
    assert ("[" + body)[1..] == body;
    assert SkipNewline(body) == contents;
  }

  /** Quoted at any level, text without carriage returns lexes back exactly when the level is readable. */
  lemma {:induction false} LevelExact(text: string, level: nat, rest: string)
    requires '\r' !in text
    ensures Lex(QuoteAt(text, level) + rest) == Token(text, rest) <==> Readable(text, level)
  {
    LexOpens(text, level, rest);
    ReadsBack(text, level, rest);
  }

  lemma {:induction false} NoCarriageReturns(s: string, level: nat)
    ensures ReadLong(s, level).Token? ==> '\r' !in ReadLong(s, level).text
    decreases |s|
  {
    if s == "" {
    } else if s[0] == '[' || s[0] == ']' {
      var n := CountEquals(s[1..]);
      RunChars(n);
      assert s[..n + 1] == [s[0]] + Run(n) by { assert s[1..][..n] == s[1..n + 1]; }
      if n == level && n + 1 < |s| && s[n + 1] == s[0] {
        ReadMatch(s, level);
        NoCarriageReturns(s[n + 2..], level);
        assert s[..n + 2] == s[..n + 1] + [s[0]];
      } else {
        ReadPlain(s, level);
        NoCarriageReturns(s[n + 1..], level);
      }
    } else if IsNewline(s[0]) {
      NoCarriageReturns(SkipNewline(s), level);
    } else {
      NoCarriageReturns(s[1..], level);
    }
  }

  lemma {:induction false} LexedText(s: string)
    ensures Lex(s).Token? ==> '\r' !in Lex(s).text
  {
    if s != "" && s[0] == '[' {
      var n := CountEquals(s[1..]);
      var after := s[1 + n..];
      if after != "" && after[0] == '[' {
        var body := after[1..];
        NoCarriageReturns(if body != "" && IsNewline(body[0]) then SkipNewline(body) else body, n);
      }
    }
  }

  /**
    The literal the quoter builds, whatever follows it, lexes back to the text and
    ends exactly where the literal ends - if and only if the text has no carriage
    return, which Lua turns into a newline.
  */
  lemma {:induction false} RoundTrip(text: string, level: nat, rest: string)
    requires !Unsafe(text, level)
    ensures Lex(QuoteAt(text, level) + rest) == Token(text, rest) <==> '\r' !in text
  {
    if '\r' !in text {
      LevelExact(text, level, rest);
    } else {
      LexedText(QuoteAt(text, level) + rest);
    }
  }

  lemma {:induction false} Absent(t: string, pattern: string)
    requires pattern != "" && forall i :: 0 <= i < |t| ==> !(pattern <= t[i..])
    ensures !Contains(t, pattern)
  {
    if t != "" {
      assert t[0..] == t;
      assert forall i :: 0 <= i < |t[1..]| ==> t[1..][i..] == t[i + 1..];
      Absent(t[1..], pattern);
    }
  }

  /** The quoter's test is stricter than Lua's above level 0: here level 1 would do, and level 2 is used. */
  lemma {:induction false} StricterThanNeeded()
    ensures Unsafe("[=[]", 0) && Unsafe("[=[]", 1) && !Unsafe("[=[]", 2)
    ensures Readable("[=[]", 1)
  {
    var t := "[=[]";
    assert Run(1) == "=" + Run(0) && Run(2) == "=" + Run(1);
    assert Closer(1) == "]=]" && Closer(2) == "]==]" && Opener(1) == "[=[" && Opener(2) == "[==[";
    assert HalfCloser(0) == "]" && t[3..] == HalfCloser(0);
    assert Opener(1) <= t;
    forall i | 0 <= i < |t| ensures !(Closer(1) <= t[i..]) && !(Closer(2) <= t[i..]) && !(Opener(2) <= t[i..]) {
      assert t[i..][0] == t[i];
      if i == 0 { assert t[i..][2] == '['; }
    }
    Absent(t, Closer(1));
    Absent(t, Closer(2));
    Absent(t, Opener(2));
  }
}
