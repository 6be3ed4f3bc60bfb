/**
 * The Python string built-ins the transcript formatter relies on:
 * `str.strip()`, `"=" * n`, `"\n".join(lines)`, and `str.split("\n")`
 * as the inverse partner of the join.
 */
module PyStrings {

  /**
   * The whitespace set stripped by `str.strip()` in this model: space, `\t`,
   * `\n`, `\r`, `\x0b` and `\x0c`, that is, Python's whitespace without
   * `\x1c` to `\x1f` and without the non-ASCII characters.
   */
  predicate IsSpace(c: char) {
    c == ' ' || c == '\t' || c == '\n' || c == '\r' || c == '\U{B}' || c == '\U{C}'
  }

  predicate AllSpace(s: string) {
    forall i :: 0 <= i < |s| ==> IsSpace(s[i])
  }

  /** Neither end of `s` is whitespace. */
  predicate Trimmed(s: string) {
    s == [] || (!IsSpace(s[0]) && !IsSpace(s[|s| - 1]))
  }

  /** Removes the leading whitespace run of `s`. */
  function StripLeft(s: string): string {
    if s != [] && IsSpace(s[0]) then StripLeft(s[1..]) else s
  }

  /** `StripLeft` keeps a suffix, drops only whitespace, and drops all of the leading run. */
  lemma {:induction false} StripLeftShape(s: string)
    ensures var r := StripLeft(s);
            && |r| <= |s| && r == s[|s| - |r|..]
            && AllSpace(s[..|s| - |r|])
            && (r == [] || !IsSpace(r[0]))
  {
    if s != [] && IsSpace(s[0]) {
      StripLeftShape(s[1..]);
    }
  }

  /** Removes the trailing whitespace run of `s`. */
  function StripRight(s: string): string {
    if s != [] && IsSpace(s[|s| - 1]) then StripRight(s[..|s| - 1]) else s
  }

  /** `StripRight` keeps a prefix, drops only whitespace, and drops all of the trailing run. */
  lemma {:induction false} StripRightShape(s: string)
    ensures var r := StripRight(s);
            && |r| <= |s| && r == s[..|r|]
            && AllSpace(s[|r|..])
            && (r == [] || !IsSpace(r[|r| - 1]))
  {
    if s != [] && IsSpace(s[|s| - 1]) {
      var init := s[..|s| - 1];
      StripRightShape(init);
      var r := StripRight(init);
      assert s[..|r|] == init[..|r|];
      assert s[|r|..] == init[|r|..] + [s[|s| - 1]];
    }
  }

  /**
   * `str.strip()`: `s` with its leading and trailing whitespace removed;
   * interior characters, newlines included, are kept.
   */
  function Strip(s: string): string {
    StripRight(StripLeft(s))
  }

  /**
   * The result of `Strip` is trimmed, and it is one contiguous slice of `s`
   * with only whitespace before and after it.
   */
  lemma StripIsSlice(s: string)
    ensures var r := Strip(s);
            && Trimmed(r)
            && exists i :: 0 <= i <= |s| - |r| && s[i..i + |r|] == r
                           && AllSpace(s[..i]) && AllSpace(s[i + |r|..])
  {
    var left := StripLeft(s);
    var r := StripRight(left);
    StripLeftShape(s);
    StripRightShape(left);
    var i := |s| - |left|;
    assert s[i..i + |r|] == r;
    assert s[i + |r|..] == left[|r|..];
  }

  lemma {:induction false} StripLeftSkips(p: string, t: string)
    requires AllSpace(p)
    requires t == [] || !IsSpace(t[0])
    ensures StripLeft(p + t) == t
  {
    if p != [] {
      assert (p + t)[1..] == p[1..] + t;
      StripLeftSkips(p[1..], t);
    }
  }

  lemma {:induction false} StripRightSkips(t: string, q: string)
    requires AllSpace(q)
    requires t == [] || !IsSpace(t[|t| - 1])
    ensures StripRight(t + q) == t
  {
    if q != [] {
      assert (t + q)[..|t + q| - 1] == t + q[..|q| - 1];
      StripRightSkips(t, q[..|q| - 1]);
    }
  }

  /**
   * `Strip` is characterised by its contract: whenever `s` is a whitespace
   * run, a trimmed core and another whitespace run, the core is the result.
   */
  lemma StripUnique(p: string, core: string, q: string)
    requires AllSpace(p) && AllSpace(q) && Trimmed(core)
    ensures Strip(p + core + q) == core
  {
    if core == [] {
      assert p + core + q == p + q;
      assert AllSpace(p + q);
      assert StripLeft(p + q + []) == [] by { StripLeftSkips(p + q, []); }
      assert p + q + [] == p + q;
    } else {
      assert p + core + q == p + (core + q);
      StripLeftSkips(p, core + q);
      StripRightSkips(core, q);
    }
  }

  /** Stripping twice gives what stripping once gives. */
  lemma StripIdempotent(s: string)
    ensures Strip(Strip(s)) == Strip(s)
  {
    var r := Strip(s);
    StripIsSlice(s);
    assert [] + r + [] == r;
    StripUnique([], r, []);
  }

  /** `c * n` in Python's notation: `n` copies of the character `c`. */
  function Repeat(c: char, n: nat): string {
    seq(n, _ => c)
  }

  /** `"\n".join(lines)`: the lines with one newline between neighbours. */
  function JoinLines(lines: seq<string>): string {
    if |lines| == 0 then ""
    else if |lines| == 1 then lines[0]
    else lines[0] + "\n" + JoinLines(lines[1..])
  }

  /** `s.split("\n")`: the maximal newline-free pieces of `s`, at least one. */
  function SplitLines(s: string): (pieces: seq<string>)
    ensures |pieces| >= 1
  {
    if s == [] then [""]
    else if s[0] == '\n' then [""] + SplitLines(s[1..])
    else
      var rest := SplitLines(s[1..]);
      [[s[0]] + rest[0]] + rest[1..]
  }

  predicate NoNewline(s: string) {
    '\n' !in s
  }

  lemma {:induction false} SplitAfterLine(line: string, rest: string)
    requires NoNewline(line)
    ensures SplitLines(line + "\n" + rest) == [line] + SplitLines(rest)
  {
    if line != [] {
      assert (line + "\n" + rest)[1..] == line[1..] + "\n" + rest;
      SplitAfterLine(line[1..], rest);
      assert [line[0]] + line[1..] == line;
    } else {
      assert line + "\n" + rest == "\n" + rest;
      assert ("\n" + rest)[1..] == rest;
    }
  }

  lemma {:induction false} SplitSingleLine(line: string)
    requires NoNewline(line)
    ensures SplitLines(line) == [line]
  {
    if line != [] {
      SplitSingleLine(line[1..]);
      assert [line[0]] + line[1..] == line;
    }
  }

  /**
   * Splitting the joined text at newlines gives the lines back, provided no
   * line itself holds a newline.
   */
  lemma {:induction false} SplitJoin(lines: seq<string>)
    requires |lines| >= 1
    requires forall k :: 0 <= k < |lines| ==> NoNewline(lines[k])
    ensures SplitLines(JoinLines(lines)) == lines
  {
    if |lines| == 1 {
      SplitSingleLine(lines[0]);
    } else {
      SplitJoin(lines[1..]);
      SplitAfterLine(lines[0], JoinLines(lines[1..]));
      assert [lines[0]] + lines[1..] == lines;
    }
  }

  /** Joining with a final empty line makes the text end in a newline. */
  lemma {:induction false} JoinEmptyLast(lines: seq<string>)
    requires |lines| >= 1
    ensures JoinLines(lines + [""]) == JoinLines(lines) + "\n"
  {
    if |lines| == 1 {
      assert (lines + [""])[1..] == [""];
    } else {
      assert (lines + [""])[1..] == lines[1..] + [""];
      JoinEmptyLast(lines[1..]);
    }
  }
}
