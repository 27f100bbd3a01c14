/** Shared pieces: optional values, and Python's string operations on lines and substrings. */
module Prelude {

  datatype Option<+T> = None | Some(value: T)

  lemma SeqAssociates<T>(a: seq<T>, b: seq<T>, c: seq<T>)
    ensures a + (b + c) == a + b + c
  {
  }

  /** `needle in s`. */
  predicate Contains(needle: string, s: string) {
    exists i | 0 <= i <= |s| :: needle <= s[i..]
  }

  /** `len(s) - len(s.lstrip(' '))`. */
  function LeadingSpaces(s: string): (n: nat)
    ensures n <= |s|
  {
    if s == "" || s[0] != ' ' then 0 else 1 + LeadingSpaces(s[1..])
  }

  // ----- lines -----

  /** `"\n".join(lines)`. */
  function JoinLines(lines: seq<string>): string {
    if lines == [] then "" else if |lines| == 1 then lines[0] else lines[0] + "\n" + JoinLines(lines[1..])
  }

  /** `text.split("\n")`. */
  function SplitLines(text: string): (lines: seq<string>)
    ensures lines != []
  {
    if text == "" then [""]
    else if text[0] == '\n' then [""] + SplitLines(text[1..])
    else
      var rest := SplitLines(text[1..]);
      [[text[0]] + rest[0]] + rest[1..]
  }

  lemma {:induction false} SplitLine(s: string)
    requires '\n' !in s
    ensures SplitLines(s) == [s]
  {
    if s != "" {
      assert s[0] in s && forall c :: c in s[1..] ==> c in s;
      SplitLine(s[1..]);
      assert [s[0]] + s[1..] == s;
    }
  }

  lemma {:induction false} SplitFirst(a: string, b: string)
    requires '\n' !in a
    ensures SplitLines(a + "\n" + b) == [a] + SplitLines(b)
  {
    var text := a + "\n" + b;
    if a == "" {
      assert text == ['\n'] + b;
    } else {
      assert a[0] in a && forall c :: c in a[1..] ==> c in a;
      SplitFirst(a[1..], b);
      assert text[0] == a[0] && text[1..] == a[1..] + "\n" + b;
      assert [a[0]] + a[1..] == a;
    }
  }

  function FirstBreak(s: string): (k: nat)
    requires '\n' in s
    ensures k < |s| && s[k] == '\n' && '\n' !in s[..k]
  {
    if s[0] == '\n' then 0
    else
      var k := FirstBreak(s[1..]) + 1;
      assert s[..k] == [s[0]] + s[1..][..k - 1];
      k
  }

  /** Splitting a join of two texts splits each. */
  lemma {:induction false} SplitTwo(a: string, b: string)
    ensures SplitLines(a + "\n" + b) == SplitLines(a) + SplitLines(b)
  {
    hide SplitLines;
    if '\n' !in a {
      SplitLine(a);
      SplitFirst(a, b);
    } else {
      var k := FirstBreak(a);
      var head, tail := a[..k], a[k + 1..];
      assert a == head + "\n" + tail;
      SplitFirst(head, tail);
      SplitTwo(tail, b);
      SeqAssociates(head + "\n", tail, "\n");
      SeqAssociates(head + "\n", tail + "\n", b);
      SplitFirst(head, tail + "\n" + b);
      SeqAssociates([head], SplitLines(tail), SplitLines(b));
    }
  }

  /** Splitting gives back the lines that were joined. */
  lemma {:induction false} SplitJoin(lines: seq<string>)
    requires lines != [] && forall l :: l in lines ==> '\n' !in l
    ensures SplitLines(JoinLines(lines)) == lines
  {
    assert lines[0] in lines;
    if |lines| == 1 {
      SplitLine(lines[0]);
    } else {
      assert forall l :: l in lines[1..] ==> l in lines;
      SplitJoin(lines[1..]);
      SplitFirst(lines[0], JoinLines(lines[1..]));
      assert [lines[0]] + lines[1..] == lines;
    }
  }
}
