/**
 * The replies the brain writes to the game manager (src/Response.cpp): each
 * public method builds one line of text and `send` writes it followed by
 * `std::endl`. Standard output is modelled as the text written so far.
 */
module Response {
  import opened Wrappers
  import opened Text
  import opened Numerals
  import opened MoveParser

  /** One call of a public `Response` method, with its arguments. */
  datatype Reply =
    | Move(x: int, y: int)
    | Ok
    | Error
    | ErrorWith(message: string)
    | Unknown
    | Debug(message: string)
    | Message(message: string)
    | About(name: string, version: string, author: string, country: string)
    | Raw(text: string)

  /** The line a reply writes, without its newline. */
  function Line(r: Reply): string
  {
    match r
    case Move(x, y) => IntToString(x) + "," + IntToString(y)
    case Ok => "OK"
    case Error => "ERROR"
    case ErrorWith(m) => "ERROR " + m
    case Unknown => "UNKNOWN"
    case Debug(m) => "DEBUG " + m
    case Message(m) => "MESSAGE " + m
    case About(name, version, author, country) =>
      Field("", "name", name) + Field(", ", "version", version) + Field(", ", "author", author) + Field(", ", "country", country)
    case Raw(text) => text
  }

  /** One `key="value"` pair of the ABOUT line, after its separator. */
  function Field(sep: string, key: string, value: string): string
  {
    sep + key + "=\"" + value + "\""
  }

  /** `send`: the output after writing the reply's line and the newline of `std::endl`. */
  function Send(out: string, r: Reply): string
  {
    out + Line(r) + "\n"
  }

  function NewlineCount(s: string): nat
  {
    multiset(s)['\n']
  }

  /** No argument string of the reply holds a newline. */
  predicate NoNewlineArgs(r: Reply)
  {
    match r
    case ErrorWith(m) => '\n' !in m
    case Debug(m) => '\n' !in m
    case Message(m) => '\n' !in m
    case About(name, version, author, country) =>
      '\n' !in name && '\n' !in version && '\n' !in author && '\n' !in country
    case Raw(text) => '\n' !in text
    case _ => true
  }

  lemma LineHasNoNewline(r: Reply)
    requires NoNewlineArgs(r)
    ensures '\n' !in Line(r)
  {
    match r
    case Move(x, y) =>
      IntToStringChars(x);
      IntToStringChars(y);
      var a, b := IntToString(x), IntToString(y);
      assert forall k :: 0 <= k < |a| ==> (a + "," + b)[k] == a[k];
      assert forall k :: |a| < k < |a + "," + b| ==> (a + "," + b)[k] == b[k - |a| - 1];
    case About(name, version, author, country) =>
      FieldHasNoNewline("", "name", name);
      FieldHasNoNewline(", ", "version", version);
      FieldHasNoNewline(", ", "author", author);
      FieldHasNoNewline(", ", "country", country);
    case _ =>
  }

  lemma FieldHasNoNewline(sep: string, key: string, value: string)
    requires '\n' !in sep && '\n' !in key && '\n' !in value
    ensures '\n' !in Field(sep, key, value)
  {
  }

  /** Appending a newline-free text and a newline adds one newline, at the end. */
  lemma AppendOneLine(out: string, line: string)
    requires '\n' !in line
    ensures |out + line + "\n"| == |out| + |line| + 1
    ensures (out + line + "\n")[..|out|] == out
    ensures (out + line + "\n")[|out| + |line|] == '\n'
    ensures NewlineCount(out + line + "\n") == NewlineCount(out) + 1
  {
    var s := out + line + "\n";
    assert s[..|out|] == out;
    assert multiset(s) == multiset(out) + multiset(line) + multiset("\n");
  }

  /**
   * Every call writes exactly one line: what was written before is kept, one
   * newline is added and it is the last character.
   */
  lemma SendEmitsOneLine(out: string, r: Reply)
    requires NoNewlineArgs(r)
    ensures |Send(out, r)| == |out| + |Line(r)| + 1
    ensures Send(out, r)[..|out|] == out
    ensures Send(out, r)[|Send(out, r)| - 1] == '\n'
    ensures NewlineCount(Send(out, r)) == NewlineCount(out) + 1
  {
    LineHasNoNewline(r);
    AppendOneLine(out, Line(r));
  }

  /** A move line holds no whitespace, and its only comma follows the first coordinate. */
  lemma MoveLineShape(x: int, y: int)
    ensures forall k :: 0 <= k < |Line(Move(x, y))| ==> !IsSpace(Line(Move(x, y))[k])
    ensures Line(Move(x, y))[|IntToString(x)|] == ','
    ensures forall k :: 0 <= k < |Line(Move(x, y))| && k != |IntToString(x)| ==> Line(Move(x, y))[k] != ','
  {
    var a, b := IntToString(x), IntToString(y);
    var s := a + "," + b;
    IntToStringChars(x);
    IntToStringChars(y);
    assert forall k :: 0 <= k < |a| ==> s[k] == a[k];
    assert forall k :: |a| < k < |s| ==> s[k] == b[k - |a| - 1];
  }

  /** The game manager reads a move line back as the coordinates that were written. */
  lemma MoveLineParses(x: int, y: int)
    requires IsInt32(x) && IsInt32(y)
    ensures ParseMove(Line(Move(x, y))) == Some((x, y))
  {
    ParseMoveOfPair(x, y);
  }

  /** The index of the first double quote in `s`, or |s| when there is none. */
  function QuoteIndex(s: string): (i: nat)
    ensures i <= |s|
    ensures forall k :: 0 <= k < i ==> s[k] != '"'
    ensures i < |s| ==> s[i] == '"'
  {
    if s == [] || s[0] == '"' then 0 else 1 + QuoteIndex(s[1..])
  }

  /** The quoted values of a line, in order: the texts between the first and second quote, the third and fourth, and so on. */
  function QuotedValues(s: string): seq<string>
    decreases |s|
  {
    var i := QuoteIndex(s);
    if i == |s| then []
    else
      var rest := s[i + 1..];
      var j := QuoteIndex(rest);
      if j == |rest| then [] else [rest[..j]] + QuotedValues(rest[j + 1..])
  }

  /** No character of `s` is a double quote. */
  predicate NoQuote(s: string)
  {
    '"' !in s
  }

  lemma FirstQuote(a: string, b: string)
    requires NoQuote(a)
    ensures QuoteIndex(a + "\"" + b) == |a|
    ensures (a + "\"" + b)[..|a|] == a
    ensures (a + "\"" + b)[|a| + 1..] == b
  {
    var s := a + "\"" + b;
    assert s[|a|] == '"';
    assert s[..|a|] == a;
    assert s[|a| + 1..] == b;
  }

  /** A field whose separator, key and value hold no quote contributes exactly its value. */
  lemma QuotedValuesOfField(sep: string, key: string, value: string, post: string)
    requires NoQuote(sep) && NoQuote(key) && NoQuote(value)
    ensures QuotedValues(Field(sep, key, value) + post) == [value] + QuotedValues(post)
  {
    var s := Field(sep, key, value) + post;
    var head := sep + key + "=";
    var rest := value + "\"" + post;
    assert s == head + "\"" + rest;
    FirstQuote(head, rest);
    FirstQuote(value, post);
  }

  lemma QuotedValuesOfLastField(sep: string, key: string, value: string)
    requires NoQuote(sep) && NoQuote(key) && NoQuote(value)
    ensures QuotedValues(Field(sep, key, value)) == [value]
  {
    QuotedValuesOfField(sep, key, value, []);
    assert Field(sep, key, value) + [] == Field(sep, key, value);
  }

  /** A field in front of text whose quoted values are `vs` adds its own value in front of them. */
  lemma FieldBeforeValues(sep: string, key: string, value: string, post: string, vs: seq<string>)
    requires NoQuote(sep) && NoQuote(key) && NoQuote(value) && QuotedValues(post) == vs
    ensures QuotedValues(Field(sep, key, value) + post) == [value] + vs
  {
    QuotedValuesOfField(sep, key, value, post);
  }


  lemma AboutLineFields(name: string, version: string, author: string, country: string)
    ensures Line(About(name, version, author, country))
            == Field("", "name", name) + (Field(", ", "version", version) + (Field(", ", "author", author) + Field(", ", "country", country)))
  {
  }

  /** The separators and keys `about` writes hold no quote. */
  lemma AboutKeysHaveNoQuote()
    ensures NoQuote("") && NoQuote(", ")
    ensures NoQuote("name") && NoQuote("version") && NoQuote("author") && NoQuote("country")
  {
  }

  lemma AuthorCountryValues(author: string, country: string)
    requires NoQuote(author) && NoQuote(country)
    ensures QuotedValues(Field(", ", "author", author) + Field(", ", "country", country)) == [author, country]
  {
    AboutKeysHaveNoQuote();
    QuotedValuesOfLastField(", ", "country", country);
    FieldBeforeValues(", ", "author", author, Field(", ", "country", country), [country]);
  }

  lemma VersionOnValues(version: string, author: string, country: string)
    requires NoQuote(version) && NoQuote(author) && NoQuote(country)
    ensures QuotedValues(Field(", ", "version", version) + (Field(", ", "author", author) + Field(", ", "country", country)))
            == [version, author, country]
  {
    AboutKeysHaveNoQuote();
    AuthorCountryValues(author, country);
    FieldBeforeValues(", ", "version", version, Field(", ", "author", author) + Field(", ", "country", country), [author, country]);
  }

  /** The four fields of an `about` line yield their four values in order. */
  lemma AboutFieldValues(name: string, version: string, author: string, country: string)
    requires NoQuote(name) && NoQuote(version) && NoQuote(author) && NoQuote(country)
    ensures QuotedValues(Field("", "name", name) + (Field(", ", "version", version) + (Field(", ", "author", author) + Field(", ", "country", country))))
            == [name, version, author, country]
  {
    AboutKeysHaveNoQuote();
    VersionOnValues(version, author, country);
    FieldBeforeValues("", "name", name, Field(", ", "version", version) + (Field(", ", "author", author) + Field(", ", "country", country)),
                      [version, author, country]);
  }

  /**
   * `about` writes the four values in the order name, version, author,
   * country, each verbatim between its own pair of quotes: a reader that
   * collects the quoted values gets them back when none holds a quote.
   */
  lemma AboutValues(name: string, version: string, author: string, country: string)
    requires NoQuote(name) && NoQuote(version) && NoQuote(author) && NoQuote(country)
    ensures QuotedValues(Line(About(name, version, author, country))) == [name, version, author, country]
  {
    AboutLineFields(name, version, author, country);
    AboutFieldValues(name, version, author, country);
  }

  function HasPrefix(s: string, p: string): bool
  {
    |p| <= |s| && s[..|p|] == p
  }

  /**
   * How a reader of the protocol tells the lines apart: the three status
   * words, the three tagged messages, a coordinate pair, or anything else.
   */
  function Classify(line: string): Reply
  {
    if line == "OK" then Ok
    else if line == "ERROR" then Error
    else if line == "UNKNOWN" then Unknown
    else if HasPrefix(line, "ERROR ") then ErrorWith(line[6..])
    else if HasPrefix(line, "DEBUG ") then Debug(line[6..])
    else if HasPrefix(line, "MESSAGE ") then Message(line[8..])
    else
      match ParseMove(line)
      case Some((x, y)) => Move(x, y)
      case None => Raw(line)
  }

  /** Replies whose line identifies them: every kind except `about` and `raw`, with 32-bit coordinates. */
  predicate Decodable(r: Reply)
  {
    match r
    case Move(x, y) => IsInt32(x) && IsInt32(y)
    case About(_, _, _, _) => false
    case Raw(_) => false
    case _ => true
  }

  lemma MoveLineStart(x: int, y: int)
    ensures |Line(Move(x, y))| >= 3
    ensures Line(Move(x, y))[0] == '-' || IsDigit(Line(Move(x, y))[0])
  {
    IntToStringChars(x);
    assert Line(Move(x, y))[0] == IntToString(x)[0];
  }

  lemma TaggedPrefix(tag: string, m: string)
    ensures HasPrefix(tag + m, tag)
    ensures (tag + m)[|tag|..] == m
  {
    assert (tag + m)[..|tag|] == tag;
  }

  /** Reading back the line of a decodable reply gives that reply. */
  lemma ClassifyLine(r: Reply)
    requires Decodable(r)
    ensures Classify(Line(r)) == r
  {
    match r
    case Move(x, y) =>
      var s := Line(r);
      MoveLineStart(x, y);
      assert s[0] != 'O' && s[0] != 'E' && s[0] != 'U' && s[0] != 'D' && s[0] != 'M';
      assert s != "OK" && s != "ERROR" && s != "UNKNOWN";
      assert !HasPrefix(s, "ERROR ") && !HasPrefix(s, "DEBUG ") && !HasPrefix(s, "MESSAGE ");
      MoveLineParses(x, y);
    case Ok =>
    case Error =>
    case Unknown =>
    case ErrorWith(m) =>
      TaggedPrefix("ERROR ", m);
      assert Line(r)[0] == 'E' && |Line(r)| >= 6;
      assert Line(r) != "OK" && Line(r) != "ERROR" && Line(r) != "UNKNOWN";
    case Debug(m) =>
      TaggedPrefix("DEBUG ", m);
      assert Line(r)[0] == 'D';
      assert !HasPrefix(Line(r), "ERROR ");
    case Message(m) =>
      TaggedPrefix("MESSAGE ", m);
      assert Line(r)[0] == 'M';
      assert !HasPrefix(Line(r), "ERROR ") && !HasPrefix(Line(r), "DEBUG ");
  }

  /** Distinct decodable replies write distinct lines; in particular OK, ERROR and UNKNOWN differ from each other and from every move. */
  lemma DecodableLinesDistinct(r1: Reply, r2: Reply)
    requires Decodable(r1) && Decodable(r2) && r1 != r2
    ensures Line(r1) != Line(r2)
  {
    ClassifyLine(r1);
    ClassifyLine(r2);
  }
}
