/**
 * `CommandRouter` (src/CommandRouter.cpp): a table from upper-case command
 * names to handlers, and `process`, which trims a line, splits off its
 * command word, looks the word up case-insensitively and either calls the
 * handler with the arguments or answers UNKNOWN. Handlers are opaque
 * callables in the source; here each is an identifier, and a dispatch
 * records which handler would be called with which arguments.
 */
module CommandRouter {
  import opened Text
  import Response

  /** Stands for a registered `std::function` handler. */
  type HandlerId = nat

  /** What `process` does with one line. */
  datatype Dispatch =
    | Ignored                                   // blank line: nothing happens
    | Invoke(handler: HandlerId, args: string)  // the handler is called with `args`
    | Unrecognized                              // "UNKNOWN" is written

  /** The table after `registerHandler(command, handler)`: the entry under the upper-cased name is set. */
  function Register(table: map<string, HandlerId>, command: string, handler: HandlerId): map<string, HandlerId>
  {
    table[ToUpper(command) := handler]
  }

  /** The decision `process` takes for `line` with the given table. */
  function Route(table: map<string, HandlerId>, line: string): Dispatch
  {
    var trimmed := Trim(line);
    if trimmed == [] then Ignored
    else
      var (rawCommand, args) := SplitCommand(trimmed);
      var command := ToUpper(rawCommand);
      if command in table then Invoke(table[command], args) else Unrecognized
  }

  class Router {
    var handlers: map<string, HandlerId>

    constructor()
      ensures handlers == map[]
    {
      handlers := map[];
    }

    /** `registerHandler`: store the handler under the upper-cased name, replacing any earlier one. */
    method RegisterHandler(command: string, handler: HandlerId)
      modifies this
      ensures handlers == Register(old(handlers), command, handler)
    {
      handlers := Register(handlers, command, handler);
    }

    /**
     * `process`: the dispatch for `line` and the output afterwards. Only an
     * unrecognised command writes anything, the single line UNKNOWN. The
     * table is not changed (the method modifies nothing).
     */
    method Process(line: string, out: string) returns (d: Dispatch, out': string)
      ensures d == Route(handlers, line)
      ensures d.Unrecognized? ==> out' == Response.Send(out, Response.Unknown)
      ensures !d.Unrecognized? ==> out' == out
    {
      d := Route(handlers, line);
      out' := if d.Unrecognized? then Response.Send(out, Response.Unknown) else out;
    }
  }

  lemma TrimEmptyIffAllSpace(s: string)
    ensures Trim(s) == [] <==> AllSpace(s)
  {
    var i := SkipSpaces(s, 0);
    if i < |s| {
      var rest := s[i..];
      assert rest[0] == s[i];
      assert TrimEnd(rest) > 0;
    }
  }

  /** A line is ignored exactly when it is empty or all whitespace. */
  lemma RouteIgnoresBlank(table: map<string, HandlerId>, line: string)
    ensures Route(table, line) == Ignored <==> AllSpace(line)
  {
    TrimEmptyIffAllSpace(line);
  }

  predicate NoSpaceIn(s: string)
  {
    forall j :: 0 <= j < |s| ==> !IsSpace(s[j])
  }

  /** Neither end of a trimmed text is whitespace. */
  predicate TrimmedCore(m: string)
  {
    m == [] || (!IsSpace(m[0]) && !IsSpace(m[|m| - 1]))
  }

  lemma RouteOfTrimmed(table: map<string, HandlerId>, line: string, cmd: string, args: string)
    requires Trim(line) != [] && SplitCommand(Trim(line)) == (cmd, args)
    ensures ToUpper(cmd) in table ==> Route(table, line) == Invoke(table[ToUpper(cmd)], args)
    ensures ToUpper(cmd) !in table ==> Route(table, line) == Unrecognized
  {
  }

  /** A trimmed text is its own trim. */
  lemma TrimmedIsFixed(m: string)
    requires TrimmedCore(m)
    ensures Trim(m) == m
  {
    TrimOfPadded([], m, []);
    assert [] + m + [] == m;
  }

  lemma CoreEnds(cmd: string, sep: char, m: string)
    requires cmd != [] && NoSpaceIn(cmd) && m != [] && TrimmedCore(m)
    ensures TrimmedCore(cmd + [sep] + m) && cmd + [sep] + m != []
  {
    var core := cmd + [sep] + m;
    assert core[0] == cmd[0];
    assert core[|core| - 1] == m[|m| - 1];
  }

  lemma CommandLineCore(cmd: string, sep: char, m: string)
    requires cmd != [] && NoSpaceIn(cmd) && IsBlank(sep) && m != [] && TrimmedCore(m)
    ensures TrimmedCore(cmd + [sep] + m) && cmd + [sep] + m != []
    ensures SplitCommand(cmd + [sep] + m) == (cmd, m)
  {
    CoreEnds(cmd, sep, m);
    assert forall j :: 0 <= j < |cmd| ==> !IsBlank(cmd[j]);
    SplitJoined(cmd, sep, m);
    TrimmedIsFixed(m);
  }

  /**
   * A command line, with any whitespace around it, a command word, a space
   * or tab and arguments: the handler registered under the upper-cased word
   * receives the arguments without their surrounding whitespace; with no
   * such handler the answer is UNKNOWN.
   */
  lemma RouteCommandLine(table: map<string, HandlerId>, u: string, cmd: string, sep: char, m: string, v: string)
    requires AllSpace(u) && AllSpace(v)
    requires cmd != [] && NoSpaceIn(cmd) && IsBlank(sep) && m != [] && TrimmedCore(m)
    ensures ToUpper(cmd) in table ==> Route(table, u + (cmd + [sep] + m) + v) == Invoke(table[ToUpper(cmd)], m)
    ensures ToUpper(cmd) !in table ==> Route(table, u + (cmd + [sep] + m) + v) == Unrecognized
  {
    CommandLineCore(cmd, sep, m);
    TrimOfPadded(u, cmd + [sep] + m, v);
    RouteOfTrimmed(table, u + (cmd + [sep] + m) + v, cmd, m);
  }

  /** A command word alone, with any whitespace around it, calls its handler with empty arguments. */
  lemma RouteCommandWord(table: map<string, HandlerId>, u: string, cmd: string, v: string)
    requires AllSpace(u) && AllSpace(v)
    requires cmd != [] && NoSpaceIn(cmd)
    ensures ToUpper(cmd) in table ==> Route(table, u + cmd + v) == Invoke(table[ToUpper(cmd)], [])
    ensures ToUpper(cmd) !in table ==> Route(table, u + cmd + v) == Unrecognized
  {
    assert cmd[|cmd| - 1] == cmd[|cmd| - 1];
    TrimOfPadded(u, cmd, v);
    SplitWord(cmd);
    RouteOfTrimmed(table, u + cmd + v, cmd, []);
  }

  /**
   * Registration is case-insensitive: after registering `name`, a line whose
   * command word has the same upper case reaches the new handler.
   */
  lemma RouteAfterRegister(table: map<string, HandlerId>, name: string, h: HandlerId,
                           u: string, cmd: string, sep: char, m: string, v: string)
    requires ToUpper(cmd) == ToUpper(name)
    requires AllSpace(u) && AllSpace(v)
    requires cmd != [] && NoSpaceIn(cmd) && IsBlank(sep) && m != [] && TrimmedCore(m)
    ensures Route(Register(table, name, h), u + (cmd + [sep] + m) + v) == Invoke(h, m)
  {
    RouteCommandLine(Register(table, name, h), u, cmd, sep, m, v);
  }

  /** Registering a name again, in any letter case, replaces its handler; every other entry is kept. */
  lemma ReRegisterReplaces(table: map<string, HandlerId>, n1: string, h1: HandlerId, n2: string, h2: HandlerId)
    requires ToUpper(n1) == ToUpper(n2)
    ensures Register(Register(table, n1, h1), n2, h2) == Register(table, n2, h2)
    ensures forall k :: k in table && k != ToUpper(n2) ==> k in Register(table, n2, h2) && Register(table, n2, h2)[k] == table[k]
    ensures ToUpper(n2) in Register(table, n2, h2)
  {
  }
}
