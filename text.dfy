/**
 * The protocol's string helpers `trim`, `toUpper` and `splitCommand`.
 * src/main.cpp:11-31 and src/CommandRouter.cpp:8-30 each hold the same code
 * for the three helpers, laid out differently; this module is the one
 * definition both use.
 * Characters follow the C locale: `std::isspace` is true of exactly six
 * characters and `std::toupper` changes only 'a'..'z'.
 */
module Text {

  /** `std::isspace` in the C locale: space, \t, \n, \v, \f and \r. */
  predicate IsSpace(c: char)
  {
    c == ' ' || c == '\t' || c == '\n' || c == '\U{000B}' || c == '\U{000C}' || c == '\r'
  }

  /** The two separators of `find_first_of(" \t")`. */
  predicate IsBlank(c: char)
  {
    c == ' ' || c == '\t'
  }

  predicate AllSpace(s: string)
  {
    forall k :: 0 <= k < |s| ==> IsSpace(s[k])
  }

  /** The first index at or after `i` that does not hold whitespace (or |s|). */
  function SkipSpaces(s: string, i: nat): (j: nat)
    requires i <= |s|
    ensures i <= j <= |s|
    ensures forall k :: i <= k < j ==> IsSpace(s[k])
    ensures j < |s| ==> !IsSpace(s[j])
    decreases |s| - i
  {
    if i < |s| && IsSpace(s[i]) then SkipSpaces(s, i + 1) else i
  }

  /** The index just past the last non-whitespace character (0 if there is none). */
  function TrimEnd(s: string): (j: nat)
    ensures j <= |s|
    ensures forall k :: j <= k < |s| ==> IsSpace(s[k])
    ensures j > 0 ==> !IsSpace(s[j - 1])
  {
    if s == [] || !IsSpace(s[|s| - 1]) then |s| else TrimEnd(s[..|s| - 1])
  }

  /**
   * `trim` (src/main.cpp:11-17): erase the leading whitespace, then the
   * trailing whitespace of what is left. The result is the slice of `s` that
   * starts after the leading whitespace, with only whitespace after it, and it
   * neither starts nor ends with whitespace.
   */
  function Trim(s: string): (r: string)
    ensures SkipSpaces(s, 0) + |r| <= |s|
    ensures r == s[SkipSpaces(s, 0) .. SkipSpaces(s, 0) + |r|]
    ensures AllSpace(s[SkipSpaces(s, 0) + |r|..])
    ensures r == [] || (!IsSpace(r[0]) && !IsSpace(r[|r| - 1]))
  {
    var rest := s[SkipSpaces(s, 0)..];
    rest[..TrimEnd(rest)]
  }

  /** Trim removes exactly the whitespace padding: any padding around a trimmed core. */
  lemma TrimOfPadded(u: string, m: string, v: string)
    requires AllSpace(u) && AllSpace(v)
    requires m == [] || (!IsSpace(m[0]) && !IsSpace(m[|m| - 1]))
    ensures Trim(u + m + v) == m
  {
    var s := u + m + v;
    if m == [] {
      assert AllSpace(s);
      assert SkipSpaces(s, 0) == |s|;
    } else {
      assert s[|u|] == m[0];
      assert SkipSpaces(s, 0) == |u|;
      var rest := s[|u|..];
      assert rest == m + v;
      assert rest[|m| - 1] == m[|m| - 1];
      assert TrimEnd(rest) == |m|;
      assert rest[..|m|] == m;
    }
  }

  /** Every string is its trimmed core padded with whitespace on both sides. */
  lemma TrimDecompose(s: string)
    ensures var i := SkipSpaces(s, 0);
            s == s[..i] + Trim(s) + s[i + |Trim(s)|..]
            && AllSpace(s[..i]) && AllSpace(s[i + |Trim(s)|..])
  {
    var i := SkipSpaces(s, 0);
    assert s == s[..i] + s[i..i + |Trim(s)|] + s[i + |Trim(s)|..];
  }

  lemma TrimIdempotent(s: string)
    ensures Trim(Trim(s)) == Trim(s)
  {
    var r := Trim(s);
    TrimOfPadded([], r, []);
    assert [] + r + [] == r;
  }

  lemma TrimAllSpace(s: string)
    requires AllSpace(s)
    ensures Trim(s) == []
  {
  }

  /** `std::toupper` in the C locale. */
  function UpperChar(c: char): char
  {
    if 'a' <= c <= 'z' then (c as int - 32) as char else c
  }

  /**
   * `toUpper` (src/main.cpp:19-23): same length; each lower-case letter
   * a..z becomes its upper-case letter and every other character is kept.
   */
  function ToUpper(s: string): (r: string)
    ensures |r| == |s|
    ensures forall k :: 0 <= k < |s| && 'a' <= s[k] <= 'z' ==> 'A' <= r[k] <= 'Z' && r[k] as int == s[k] as int - 32
    ensures forall k :: 0 <= k < |s| && !('a' <= s[k] <= 'z') ==> r[k] == s[k]
  {
    seq(|s|, k requires 0 <= k < |s| => UpperChar(s[k]))
  }

  lemma ToUpperIdempotent(s: string)
    ensures ToUpper(ToUpper(s)) == ToUpper(s)
  {
  }

  /** A string with no lower-case letter is its own upper case. */
  lemma ToUpperNoLower(s: string)
    requires forall k :: 0 <= k < |s| ==> !('a' <= s[k] <= 'z')
    ensures ToUpper(s) == s
  {
  }

  /** The index of the first space or tab (|s| when there is none). */
  function FirstBlank(s: string): (k: nat)
    ensures k <= |s|
    ensures forall j :: 0 <= j < k ==> !IsBlank(s[j])
    ensures k < |s| ==> IsBlank(s[k])
  {
    if s == [] then 0 else if IsBlank(s[0]) then 0 else 1 + FirstBlank(s[1..])
  }

  /**
   * `splitCommand` (src/main.cpp:25-31): the command is the text before the
   * first space or tab and holds none; the arguments are the trimmed rest
   * after that separator, or "" when the line has no separator.
   */
  function SplitCommand(line: string): (r: (string, string))
    ensures |r.0| <= |line| && r.0 == line[..|r.0|]
    ensures forall j :: 0 <= j < |r.0| ==> !IsBlank(r.0[j])
    ensures |r.0| == |line| ==> r.1 == []
    ensures |r.0| < |line| ==> IsBlank(line[|r.0|]) && r.1 == Trim(line[|r.0| + 1..])
  {
    var pos := FirstBlank(line);
    if pos == |line| then (line, []) else (line[..pos], Trim(line[pos + 1..]))
  }

  /** A command word followed by a separator and arguments splits back into the word and the trimmed arguments. */
  lemma SplitJoined(cmd: string, sep: char, args: string)
    requires forall j :: 0 <= j < |cmd| ==> !IsBlank(cmd[j])
    requires IsBlank(sep)
    ensures SplitCommand(cmd + [sep] + args) == (cmd, Trim(args))
  {
    var line := cmd + [sep] + args;
    assert line[..|cmd|] == cmd;
    assert line[|cmd|] == sep;
    assert forall j :: 0 <= j < |cmd| ==> line[j] == cmd[j];
    assert FirstBlank(line) == |cmd|;
    assert line[|cmd| + 1..] == args;
  }

  /** A line without a separator is all command. */
  lemma SplitWord(cmd: string)
    requires forall j :: 0 <= j < |cmd| ==> !IsBlank(cmd[j])
    ensures SplitCommand(cmd) == (cmd, [])
  {
  }
}
