/** Character classes and `String.prototype.split` as JavaScript defines them. */
module Strings {

  /** `\d` in a JavaScript regular expression. */
  predicate IsDigit(c: char) { '0' <= c <= '9' }

  /** A digit `parseInt` accepts in radix 16. */
  predicate IsHexDigit(c: char) { IsDigit(c) || 'a' <= c <= 'f' || 'A' <= c <= 'F' }

  /** Line terminators: what `.` in a regular expression does not match. */
  predicate IsLineTerminator(c: char) {
    c == '\n' || c == '\r' || c == '\U{2028}' || c == '\U{2029}'
  }

  /** `\s` in a JavaScript regular expression (white space and line terminators). */
  predicate IsSpace(c: char) {
    || c == ' ' || c == '\t' || c == '\U{000B}' || c == '\U{000C}'
    || c == '\U{00A0}' || c == '\U{FEFF}' || c == '\U{1680}'
    || ('\U{2000}' <= c <= '\U{200A}') || c == '\U{202F}' || c == '\U{205F}'
    || c == '\U{3000}' || IsLineTerminator(c)
  }

  predicate AllDigits(s: string) { forall i :: 0 <= i < |s| ==> IsDigit(s[i]) }

  predicate AllHexDigits(s: string) { forall i :: 0 <= i < |s| ==> IsHexDigit(s[i]) }

  predicate NoneIn(s: string, seps: set<char>) { forall i :: 0 <= i < |s| ==> s[i] !in seps }

  function DigitValue(c: char): (d: nat)
    requires IsHexDigit(c)
    ensures d < 16 && (IsDigit(c) <==> d < 10)
  {
    if IsDigit(c) then c as int - '0' as int
    else if 'a' <= c <= 'f' then c as int - 'a' as int + 10
    else c as int - 'A' as int + 10
  }

  /** The value of a digit string in the given radix, most significant digit first. */
  function ValueOf(s: string, radix: nat): nat
    requires radix == 10 || radix == 16
    requires AllHexDigits(s)
  {
    if |s| == 0 then 0 else ValueOf(s[..|s| - 1], radix) * radix + DigitValue(s[|s| - 1])
  }

  /**
   * `s.split(sep)` where `sep` is one character or a character class: the
   * pieces between separators, with an empty piece around every adjacent pair.
   */
  function Split(s: string, seps: set<char>): (parts: seq<string>)
    ensures |parts| >= 1
    ensures forall i :: 0 <= i < |parts| ==> NoneIn(parts[i], seps)
    ensures |parts| == 1 <==> NoneIn(s, seps)
    decreases |s|
  {
    if |s| == 0 then [""]
    else if s[0] in seps then [""] + Split(s[1..], seps)
    else
      var rest := Split(s[1..], seps);
      [[s[0]] + rest[0]] + rest[1..]
  }

  /** `parts.join(sep)`. */
  function JoinWith(parts: seq<string>, sep: char): (s: string)
    requires |parts| >= 1
    decreases |parts|
  {
    if |parts| == 1 then parts[0] else parts[0] + [sep] + JoinWith(parts[1..], sep)
  }

  /** The first piece of a split is the longest prefix without a separator. */
  lemma {:induction false} SplitHead(s: string, seps: set<char>)
    ensures var p := Split(s, seps)[0];
      p <= s && (|p| < |s| ==> s[|p|] in seps)
    decreases |s|
  {
    if |s| > 0 && s[0] !in seps {
      SplitHead(s[1..], seps);
    }
  }

  /** After the first piece and its separator, the split carries on with the rest. */
  lemma {:induction false} SplitTail(s: string, seps: set<char>)
    requires |Split(s, seps)| > 1
    ensures var p := Split(s, seps)[0];
      |p| < |s| && Split(s, seps)[1..] == Split(s[|p| + 1..], seps)
    decreases |s|
  {
    if s[0] !in seps {
      SplitTail(s[1..], seps);
      assert s[1..][|Split(s[1..], seps)[0]| + 1..] == s[|Split(s, seps)[0]| + 1..];
    }
  }

  /** Splitting a separator-free prefix followed by more text. */
  lemma {:induction false} SplitPrefix(p: string, t: string, seps: set<char>)
    requires NoneIn(p, seps)
    ensures Split(p + t, seps) == [p + Split(t, seps)[0]] + Split(t, seps)[1..]
    decreases |p|
  {
    if |p| > 0 {
      assert (p + t)[1..] == p[1..] + t;
      SplitPrefix(p[1..], t, seps);
      assert [p[0]] + (p[1..] + Split(t, seps)[0]) == p + Split(t, seps)[0];
    } else {
      var q := Split(t, seps);
      assert p + t == t && p + q[0] == q[0];
      assert [q[0]] + q[1..] == q;
    }
  }

  /** Joining the pieces with `c` gives back a text whose only separator is `c`. */
  lemma {:induction false} JoinSplit(s: string, seps: set<char>, c: char)
    requires c in seps
    requires forall i :: 0 <= i < |s| && s[i] in seps ==> s[i] == c
    ensures JoinWith(Split(s, seps), c) == s
    decreases |s|
  {
    if |s| > 0 {
      var rest := Split(s[1..], seps);
      JoinSplit(s[1..], seps, c);
      if s[0] in seps {
        assert Split(s, seps) == [""] + rest;
        assert ([""] + rest)[1..] == rest;
      } else {
        var parts := Split(s, seps);
        assert parts[1..] == rest[1..];
        if |rest| > 1 {
          assert rest[1..] == Split(s[1..], seps)[1..];
        }
      }
    }
  }

  /** Splitting separator-free pieces joined by a separator gives the pieces back. */
  lemma {:induction false} SplitJoin(parts: seq<string>, seps: set<char>, c: char)
    requires c in seps && |parts| >= 1
    requires forall i :: 0 <= i < |parts| ==> NoneIn(parts[i], seps)
    ensures Split(JoinWith(parts, c), seps) == parts
    decreases |parts|
  {
    if |parts| == 1 {
      SplitPrefix(parts[0], "", seps);
      assert parts[0] + "" == parts[0];
    } else {
      var t := [c] + JoinWith(parts[1..], c);
      SplitJoin(parts[1..], seps, c);
      SplitPrefix(parts[0], t, seps);
      assert t[1..] == JoinWith(parts[1..], c);
      assert Split(t, seps) == [""] + parts[1..];
      assert parts[0] + [c] + JoinWith(parts[1..], c) == parts[0] + t;
      assert Split(t, seps)[1..] == parts[1..];
      assert parts[0] + "" == parts[0];
      assert [parts[0]] + parts[1..] == parts;
    }
  }

  /** `s.replace(/<from>/g, <to>)` for single characters. */
  function ReplaceAll(s: string, from: char, to: char): (r: string)
    ensures |r| == |s|
    ensures forall i :: 0 <= i < |s| ==> r[i] == (if s[i] == from then to else s[i])
  {
    if |s| == 0 then "" else [if s[0] == from then to else s[0]] + ReplaceAll(s[1..], from, to)
  }

  predicate NoSpace(s: string) { forall i :: 0 <= i < |s| ==> !IsSpace(s[i]) }

  /** What a greedy `\S*` takes at the start of `t`. */
  function NonSpacePrefix(t: string): (r: string)
    ensures r <= t && NoSpace(r)
    ensures |r| == |t| || IsSpace(t[|r|])
  {
    if |t| == 0 || IsSpace(t[0]) then "" else [t[0]] + NonSpacePrefix(t[1..])
  }

  /** `t` without its first `n` characters, empty when it is shorter. */
  function Drop(t: string, n: nat): (r: string)
    ensures n <= |t| ==> r == t[n..]
    ensures n > |t| ==> r == ""
  {
    if n <= |t| then t[n..] else ""
  }
}
