/**
 * Line splitting and joining as the Rust standard library does them:
 * `str::lines` (used by `parse`) and `[String]::join` (used by `write`).
 */
module Text {

  /** True when `s` holds neither a line feed nor a carriage return. */
  predicate LineBreakFree(s: string) {
    forall i :: 0 <= i < |s| ==> s[i] != '\n' && s[i] != '\r'
  }

  /** Index of the first `'\n'` of `s`, or `|s|` when there is none. */
  function LineBreakAt(s: string): (i: nat)
    ensures i <= |s|
    ensures forall j :: 0 <= j < i ==> s[j] != '\n'
    ensures i < |s| ==> s[i] == '\n'
  {
    if |s| == 0 || s[0] == '\n' then 0 else 1 + LineBreakAt(s[1..])
  }

  /** A `'\r'` directly before a line feed belongs to the line ending. */
  function StripCarriageReturn(line: string): string {
    if |line| > 0 && line[|line| - 1] == '\r' then line[..|line| - 1] else line
  }

  /**
   * `str::lines`: split at every `'\n'` (or `"\r\n"`); a final line feed does
   * not start another, empty line, and an empty text has no lines at all.
   */
  function Lines(s: string): (r: seq<string>)
    ensures |r| == 0 <==> |s| == 0
    ensures forall k :: 0 <= k < |r| ==> '\n' !in r[k]
    decreases |s|
  {
    if |s| == 0 then
      []
    else
      var i := LineBreakAt(s);
      if i == |s| then [s] else [StripCarriageReturn(s[..i])] + Lines(s[i + 1..])
  }

  /** `join`: the parts with `separator` between consecutive ones. */
  function Join(parts: seq<string>, separator: string): string {
    if |parts| == 0 then ""
    else if |parts| == 1 then parts[0]
    else parts[0] + separator + Join(parts[1..], separator)
  }

  /** The text with a final line feed added when it does not end in one. */
  function Completed(s: string): string {
    if |s| > 0 && s[|s| - 1] == '\n' then s else s + "\n"
  }

  /** Completing a text after a first line completes what follows it. */
  lemma CompletedAfterLine(head: string, t: string)
    requires |t| > 0
    ensures Completed(head + "\n" + t) == head + "\n" + Completed(t)
  {
    var s := head + "\n" + t;
    assert s[|s| - 1] == t[|t| - 1];
  }

  /**
   * Splitting and joining back with one final line feed gives the text again,
   * with a line feed appended when it did not end in one.
   */
  lemma {:induction false} JoinOfLines(s: string)
    requires '\r' !in s
    ensures Join(Lines(s), "\n") + "\n" == Completed(s)
    decreases |s|, 1
  {
    if |s| > 0 {
      if LineBreakAt(s) == |s| {
        assert s[|s| - 1] != '\n';
      } else {
        JoinOfLinesStep(s);
      }
    }
  }

  lemma {:induction false} JoinOfLinesStep(s: string)
    requires '\r' !in s
    requires LineBreakAt(s) < |s|
    ensures Join(Lines(s), "\n") + "\n" == Completed(s)
    decreases |s|, 0
  {
    var head, t := LinesStep(s);
    if |t| == 0 {
      assert Lines(s) == [head];
    } else {
      JoinOfLines(t);
      JoinAfterLine(head, Lines(t));
      CompletedAfterLine(head, t);
    }
  }

  /** `Lines` splits off the first line of a text that has a line feed. */
  lemma LinesStep(s: string) returns (head: string, tail: string)
    requires '\r' !in s
    requires LineBreakAt(s) < |s|
    ensures s == head + "\n" + tail
    ensures '\n' !in head && '\r' !in tail
    ensures Lines(s) == [head] + Lines(tail)
  {
    var i := LineBreakAt(s);
    head, tail := s[..i], s[i + 1..];
    assert s == head + "\n" + tail;
    assert StripCarriageReturn(head) == head;
  }

  lemma JoinAfterLine(head: string, rest: seq<string>)
    requires |rest| > 0
    ensures Join([head] + rest, "\n") + "\n" == head + "\n" + (Join(rest, "\n") + "\n")
  {
    JoinStep(head, rest, "\n");
  }

  lemma JoinStep(head: string, rest: seq<string>, separator: string)
    requires |rest| > 0
    ensures Join([head] + rest, separator) == head + separator + Join(rest, separator)
  {
    assert ([head] + rest)[1..] == rest;
  }

  /**
   * Joining lines that hold no line break and adding one final line feed is
   * undone by splitting.
   */
  lemma {:induction false} LinesOfJoin(parts: seq<string>)
    requires |parts| > 0
    requires forall k :: 0 <= k < |parts| ==> LineBreakFree(parts[k])
    ensures Lines(Join(parts, "\n") + "\n") == parts
    decreases |parts|
  {
    var s := Join(parts, "\n") + "\n";
    var head := parts[0];
    var tail := if |parts| == 1 then "" else Join(parts[1..], "\n") + "\n";
    assert s == head + "\n" + tail;
    LineBreakAtRun(head, tail);
    assert s[..|head|] == head;
    assert s[|head| + 1..] == tail;
    assert StripCarriageReturn(head) == head;
    if |parts| > 1 {
      LinesOfJoin(parts[1..]);
    }
  }

  lemma LineBreakAtRun(head: string, tail: string)
    requires LineBreakFree(head)
    ensures LineBreakAt(head + "\n" + tail) == |head|
  {
    var s := head + "\n" + tail;
    assert s[|head|] == '\n';
    assert forall j :: 0 <= j < |head| ==> s[j] == head[j];
  }
}
