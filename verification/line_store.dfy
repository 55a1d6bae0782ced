/**
  The line store: a script is the text of the editor, and the debugger sees it
  as the list of pieces Python's `code.split('\n')` produces. Only the newline
  character separates lines; a carriage return stays part of its line.
 */
module LineStore {

  const Newline: char := '\n'

  /** Number of occurrences of `c` in `s` (Python's `str.count` for one character). */
  function CountChar(s: string, c: char): (n: nat)
    ensures n <= |s|
    ensures n == 0 <==> c !in s
  {
    if |s| == 0 then 0
    else (if s[0] == c then 1 else 0) + CountChar(s[1..], c)
  }

  /** True when no line of `parts` holds a newline. */
  predicate NoNewlines(parts: seq<string>)
  {
    forall k :: 0 <= k < |parts| ==> Newline !in parts[k]
  }

  /** `s.split('\n')`: the pieces between newlines, in order, empty pieces kept. */
  function Lines(s: string): (r: seq<string>)
    ensures |r| == CountChar(s, Newline) + 1
    ensures NoNewlines(r)
  {
    if |s| == 0 then [""]
    else
      var rest := Lines(s[1..]);
      if s[0] == Newline then [""] + rest
      else [[s[0]] + rest[0]] + rest[1..]
  }

  /** `'\n'.join(parts)`: the inverse of `Lines`. */
  function Join(parts: seq<string>): string
  {
    if |parts| == 0 then ""
    else if |parts| == 1 then parts[0]
    else parts[0] + [Newline] + Join(parts[1..])
  }

  /** The number of line numbers the editor gutter draws for `text`. */
  function EditorLineCount(text: string): (n: nat)
    ensures n >= 1
  {
    CountChar(text, Newline) + 1
  }

  /** The gutter and the debugger agree on how many lines a script has. */
  lemma EditorCountsDebuggerLines(text: string)
    ensures EditorLineCount(text) == |Lines(text)|
    ensures text == "" ==> Lines(text) == [""]
  {
  }

  /** Putting one more character in front of the first line puts it in front of the joined text. */
  lemma {:induction false} JoinWithLongerHead(c: char, parts: seq<string>)
    requires |parts| >= 1
    ensures Join([[c] + parts[0]] + parts[1..]) == [c] + Join(parts)
  {
    var longer := [[c] + parts[0]] + parts[1..];
    if |parts| == 1 {
      assert longer == [[c] + parts[0]];
    } else {
      assert longer[0] == [c] + parts[0] && longer[1..] == parts[1..];
      assert Join(longer) == longer[0] + [Newline] + Join(parts[1..]);
      assert Join(parts) == parts[0] + [Newline] + Join(parts[1..]);
    }
  }

  /** Gluing the lines back together with newlines gives the script back. */
  lemma {:induction false} JoinLines(s: string)
    ensures Join(Lines(s)) == s
  {
    if |s| > 0 {
      var rest := Lines(s[1..]);
      JoinLines(s[1..]);
      if s[0] == Newline {
        assert Lines(s) == [""] + rest;
        assert ([""] + rest)[1..] == rest;
      } else {
        assert Lines(s) == [[s[0]] + rest[0]] + rest[1..];
        JoinWithLongerHead(s[0], rest);
      }
      assert s == [s[0]] + s[1..];
    }
  }

  /** A prefix without newlines only lengthens the first line. */
  lemma {:induction false} LinesOfPlainPrefix(p: string, t: string)
    requires Newline !in p
    ensures Lines(p + t) == [p + Lines(t)[0]] + Lines(t)[1..]
  {
    if |p| == 0 {
      assert p + t == t;
      assert p + Lines(t)[0] == Lines(t)[0];
      assert Lines(t) == [Lines(t)[0]] + Lines(t)[1..];
    } else {
      assert (p + t)[1..] == p[1..] + t;
      assert (p + t)[0] == p[0];
      LinesOfPlainPrefix(p[1..], t);
      assert [p[0]] + (p[1..] + Lines(t)[0]) == p + Lines(t)[0];
    }
  }

  /** Splitting joined newline-free lines gives the lines back. */
  lemma {:induction false} LinesOfJoin(parts: seq<string>)
    requires |parts| >= 1
    requires NoNewlines(parts)
    ensures Lines(Join(parts)) == parts
  {
    if |parts| == 1 {
      LinesOfPlainPrefix(parts[0], "");
      assert parts[0] + "" == parts[0];
    } else {
      var tail := Join(parts[1..]);
      LinesOfJoin(parts[1..]);
      var t := [Newline] + tail;
      assert Join(parts) == parts[0] + t;
      LinesOfPlainPrefix(parts[0], t);
      assert t[1..] == tail;
      assert Lines(t) == [""] + parts[1..];
      assert Lines(t)[0] == "" && Lines(t)[1..] == parts[1..];
      assert parts[0] + "" == parts[0];
      assert parts == [parts[0]] + parts[1..];
    }
  }
}
