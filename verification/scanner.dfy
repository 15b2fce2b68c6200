/**
 * The three character classes of the tool-versions line grammar and the
 * maximal-munch scanner `consume` that the line parser is built from
 * (the `Consumable` impls and `consume` of src/parser.rs).
 */
module Scanner {
  import opened Wrappers

  /** Rust's `char::is_whitespace`: the Unicode White_Space property. */
  predicate IsWhitespace(c: char) {
    var n := c as int;
    || 0x09 <= n <= 0x0D
    || n == 0x20 || n == 0x85 || n == 0xA0 || n == 0x1680
    || 0x2000 <= n <= 0x200A
    || n == 0x2028 || n == 0x2029 || n == 0x202F || n == 0x205F || n == 0x3000
  }

  /** `[0-9A-Za-z._-]`, the characters a tool name is made of. */
  predicate IsIdentifierChar(c: char) {
    || '0' <= c <= '9'
    || 'A' <= c <= 'Z'
    || 'a' <= c <= 'z'
    || c == '.' || c == '-' || c == '_'
  }

  /** Anything but whitespace and the comment marker. */
  predicate IsVersionChar(c: char) {
    !IsWhitespace(c) && c != '#'
  }

  datatype Class = IdentifierChars | VersionChars | WhitespaceChars

  predicate IsConsumable(cls: Class, c: char) {
    match cls
    case IdentifierChars => IsIdentifierChar(c)
    case VersionChars => IsVersionChar(c)
    case WhitespaceChars => IsWhitespace(c)
  }

  predicate AllIn(cls: Class, s: string) {
    forall i :: 0 <= i < |s| ==> IsConsumable(cls, s[i])
  }

  /** The facts about the classes that the parser relies on. */
  lemma ClassFacts(c: char)
    ensures c == '#' ==> !IsWhitespace(c) && !IsIdentifierChar(c)
    ensures IsIdentifierChar(c) ==> !IsWhitespace(c) && IsVersionChar(c)
  {
  }

  /**
   * What `consume` hands back: the token it built, the character that stopped
   * it (None at the end of the line), and the characters still unread.
   */
  datatype Scan = Scan(token: string, next: Option<char>, rest: string)

  /**
   * `consume`: `first` has already been taken off the line; keep taking
   * characters of class `cls` from `input` until one is not of the class or
   * the line ends. The stopping character is read and returned, not pushed
   * back.
   */
  function Consume(cls: Class, first: char, input: string): (r: Scan)
    ensures |r.token| > 0 && r.token[0] == first
    ensures r.next.None? ==> r.token == [first] + input && r.rest == []
    ensures r.next.Some? ==>
              && !IsConsumable(cls, r.next.value)
              && [first] + input == r.token + [r.next.value] + r.rest
    decreases |input|
  {
    if |input| == 0 then
      Scan([first], None, [])
    else if IsConsumable(cls, input[0]) then
      var s := Consume(cls, input[0], input[1..]);
      assert input == [input[0]] + input[1..];
      Scan([first] + s.token, s.next, s.rest)
    else
      Scan([first], Some(input[0]), input[1..])
  }

  /** One step of `Consume` over a character of the class. */
  lemma ConsumeStep(cls: Class, first: char, input: string)
    requires |input| > 0 && IsConsumable(cls, input[0])
    ensures var s := Consume(cls, input[0], input[1..]);
            Consume(cls, first, input) == Scan([first] + s.token, s.next, s.rest)
  {
  }

  lemma AllInTail(cls: Class, s: string)
    requires |s| > 1 && AllIn(cls, s)
    ensures AllIn(cls, s[1..]) && IsConsumable(cls, s[1])
  {
    assert forall i :: 0 <= i < |s| - 1 ==> s[1..][i] == s[i + 1];
  }

  /** The inductive step of `ConsumeRun`: one more character of the class in front. */
  lemma ConsumeRunStep(cls: Class, token: string, tail: string)
    requires |token| > 1 && IsConsumable(cls, token[1])
    ensures Consume(cls, token[0], token[1..] + tail)
            == var s := Consume(cls, token[1], token[2..] + tail);
               Scan([token[0]] + s.token, s.next, s.rest)
  {
    var input := token[1..] + tail;
    assert input[0] == token[1] && input[1..] == token[2..] + tail;
    ConsumeStep(cls, token[0], input);
  }

  /** Every character `Consume` adds after `first` is of the class. */
  lemma {:induction false} ConsumeClass(cls: Class, first: char, input: string)
    ensures AllIn(cls, Consume(cls, first, input).token[1..])
    decreases |input|
  {
    if |input| > 0 && IsConsumable(cls, input[0]) {
      ConsumeClass(cls, input[0], input[1..]);
      var s := Consume(cls, input[0], input[1..]);
      assert Consume(cls, first, input).token[1..] == s.token;
    }
  }

  /** A scan that starts with a character of the class consists of the class. */
  lemma ConsumeToken(cls: Class, first: char, input: string)
    ensures IsConsumable(cls, first) ==> AllIn(cls, Consume(cls, first, input).token)
  {
    ConsumeClass(cls, first, input);
    var t := Consume(cls, first, input).token;
    assert forall i :: 1 <= i < |t| ==> t[i] == t[1..][i - 1];
  }

  /**
   * The scan is determined by the run it consumes: a token whose tail is all
   * of the class, followed by the end of the line or by a character outside
   * the class, is exactly what `Consume` returns.
   */
  lemma {:induction false} ConsumeRun(cls: Class, token: string, tail: string)
    requires |token| > 0 && AllIn(cls, token)
    requires |tail| > 0 ==> !IsConsumable(cls, tail[0])
    ensures Consume(cls, token[0], token[1..] + tail)
            == if |tail| == 0 then Scan(token, None, []) else Scan(token, Some(tail[0]), tail[1..])
    decreases |token|
  {
    if |token| == 1 {
      assert token[1..] + tail == tail;
      assert token == [token[0]];
    } else {
      var token' := token[1..];
      AllInTail(cls, token);
      ConsumeRun(cls, token', tail);
      assert token'[0] == token[1] && token'[1..] == token[2..];
      ConsumeRunStep(cls, token, tail);
      var s := Consume(cls, token[1], token[2..] + tail);
      assert s.token == token' && [token[0]] + token' == token;
    }
  }
}
