/**
  The shell's parser (user/sh.c): gettoken and peek, and the recursive-descent parser that
  records every argument and file name as a span of the input line.
 */
module Shell {
  import opened Util

  const MAXARGS: nat := 10

  // ---------- characters ----------

  const VT: char := 11 as char

  predicate IsSpace(c: char) {
    c == ' ' || c == '\t' || c == '\r' || c == '\n' || c == VT
  }

  predicate IsSymbol(c: char) {
    c == '<' || c == '|' || c == '>' || c == '&' || c == ';' || c == '(' || c == ')'
  }

  predicate IsWord(c: char) {
    !IsSpace(c) && !IsSymbol(c) && c != '\0'
  }

  // ---------- tokens ----------

  /** The first position from `i` on that is not white space. */
  function Skip(s: CString, i: nat): (j: nat)
    requires i <= |s|
    ensures i <= j <= |s| && (j < |s| ==> !IsSpace(s[j])) && forall k :: i <= k < j ==> IsSpace(s[k])
    decreases |s| - i
  {
    if i < |s| && IsSpace(s[i]) then Skip(s, i + 1) else i
  }

  /** The first position from `i` on that is not part of a word. */
  function WordEnd(s: CString, i: nat): (j: nat)
    requires i <= |s|
    ensures i <= j <= |s| && (j < |s| ==> !IsWord(s[j])) && forall k :: i <= k < j ==> IsWord(s[k])
    decreases |s| - i
  {
    if i < |s| && IsWord(s[i]) then WordEnd(s, i + 1) else i
  }

  /** A token of the given kind is s[q..eq]; parsing goes on at `next`. */
  datatype Token = Token(kind: char, q: nat, eq: nat, next: nat)

  function TokenAt(s: CString, i: nat): (t: Token)
    requires i <= |s|
    ensures i <= t.q <= t.eq <= t.next <= |s|
    ensures t.kind == '\0' <==> t.q == |s|
    ensures t.kind != '\0' ==> i < t.next
    ensures t.kind == 'a' ==> IsSpan(s, Span(t.q, t.eq))
  {
    var q := Skip(s, i);
    if q == |s| then Token('\0', q, q, q)
    else if s[q] == '>' && q + 1 < |s| && s[q + 1] == '>' then Token('+', q, q + 2, Skip(s, q + 2))
    else if IsSymbol(s[q]) then Token(s[q], q, q + 1, Skip(s, q + 1))
    else Token('a', q, WordEnd(s, q), Skip(s, WordEnd(s, q)))
  }

  /** The next character that is not white space is one of `toks`. */
  predicate PeekAt(s: CString, i: nat, toks: string)
    requires i <= |s|
  {
    Skip(s, i) < |s| && s[Skip(s, i)] in toks
  }

  /** A maximal piece of word characters. */
  predicate IsSpan(s: CString, sp: Span) {
    && sp.q < sp.eq <= |s|
    && (forall k :: sp.q <= k < sp.eq ==> IsWord(s[k]))
    && (sp.eq < |s| ==> !IsWord(s[sp.eq]))
  }

  // ---------- commands ----------

  datatype Span = Span(q: nat, eq: nat)

  datatype Mode = Read | Write | Append

  datatype Cmd =
    | Exec(argv: seq<Span>)
    | Redir(cmd: Cmd, file: Span, mode: Mode)
    | Pipe(left: Cmd, right: Cmd)
    | List(left: Cmd, right: Cmd)
    | Back(cmd: Cmd)

  /** Every span in the command is a whole word of the line. */
  ghost predicate SpansOk(s: CString, c: Cmd) {
    match c
    case Exec(argv) => |argv| < MAXARGS && forall k :: 0 <= k < |argv| ==> IsSpan(s, argv[k])
    case Redir(cmd, file, _) => SpansOk(s, cmd) && IsSpan(s, file)
    case Pipe(l, r) => SpansOk(s, l) && SpansOk(s, r)
    case List(l, r) => SpansOk(s, l) && SpansOk(s, r)
    case Back(cmd) => SpansOk(s, cmd)
  }

  /** What the parser panics about. */
  datatype Panic = MissingFile | Syntax | TooManyArgs | MissingParen | Leftovers

  /** The command parsed and where parsing goes on, or the first panic. */
  datatype Parsed = Ok(cmd: Cmd, next: nat) | Fail(panic: Panic)

  ghost predicate Good(s: CString, i: nat, r: Parsed) {
    r.Ok? ==> i <= r.next <= |s| && SpansOk(s, r.cmd)
  }

  function ModeOf(kind: char): Mode {
    if kind == '<' then Read else if kind == '>' then Write else Append
  }

  /** parseredirs. */
  function RedirsAt(s: CString, cmd: Cmd, i: nat): (r: Parsed)
    requires i <= |s| && SpansOk(s, cmd)
    ensures Good(s, i, r)
    decreases |s| - i
  {
    if PeekAt(s, i, "<>") then
      var op := TokenAt(s, i);
      var file := TokenAt(s, op.next);
      if file.kind != 'a' then Fail(MissingFile)
      else RedirsAt(s, Redir(cmd, Span(file.q, file.eq), ModeOf(op.kind)), file.next)
    else Ok(cmd, Skip(s, i))
  }

  /** The number of arguments of the exec under the redirections, which parseexec fills. */
  function Argc(c: Cmd): nat {
    match c
    case Exec(argv) => |argv|
    case Redir(cmd, _, _) => Argc(cmd)
    case _ => 0
  }

  /** An exec under redirections. */
  predicate IsSimple(c: Cmd) {
    c.Exec? || (c.Redir? && IsSimple(c.cmd))
  }

  /** cmd->argv[argc] = q, cmd->eargv[argc] = eq, for the exec under the redirections. */
  function AddArg(c: Cmd, sp: Span): (r: Cmd)
    requires IsSimple(c)
    ensures IsSimple(r) && Argc(r) == Argc(c) + 1
  {
    match c
    case Exec(argv) => Exec(argv + [sp])
    case Redir(cmd, file, mode) => Redir(AddArg(cmd, sp), file, mode)
  }

  lemma AddArgSpans(s: CString, c: Cmd, sp: Span)
    requires IsSimple(c) && SpansOk(s, c) && IsSpan(s, sp) && Argc(c) + 1 < MAXARGS
    ensures SpansOk(s, AddArg(c, sp))
  {
  }

  lemma {:induction false} RedirsSimple(s: CString, cmd: Cmd, i: nat)
    requires i <= |s| && SpansOk(s, cmd) && IsSimple(cmd)
    ensures var r := RedirsAt(s, cmd, i); r.Ok? ==> IsSimple(r.cmd) && Argc(r.cmd) == Argc(cmd)
    decreases |s| - i
  {
    if PeekAt(s, i, "<>") {
      var op := TokenAt(s, i);
      var file := TokenAt(s, op.next);
      if file.kind == 'a' {
        RedirsSimple(s, Redir(cmd, Span(file.q, file.eq), ModeOf(op.kind)), file.next);
      }
    }
  }

  /** parseexec's loop. */
  function ArgsAt(s: CString, cmd: Cmd, i: nat): (r: Parsed)
    requires i <= |s| && IsSimple(cmd) && SpansOk(s, cmd)
    ensures Good(s, i, r)
    decreases |s| - i
  {
    if PeekAt(s, i, "|)&;") then Ok(cmd, Skip(s, i))
    else
      var t := TokenAt(s, i);
      if t.kind == '\0' then Ok(cmd, t.next)
      else if t.kind != 'a' then Fail(Syntax)
      else if Argc(cmd) + 1 >= MAXARGS then Fail(TooManyArgs)
      else
        AddArgSpans(s, cmd, Span(t.q, t.eq));
        var c := AddArg(cmd, Span(t.q, t.eq));
        RedirsSimple(s, c, t.next);
        match RedirsAt(s, c, t.next)
        case Fail(p) => Fail(p)
        case Ok(cmd', next) => ArgsAt(s, cmd', next)
  }

  /** parseexec. */
  function ExecAt(s: CString, i: nat): (r: Parsed)
    requires i <= |s|
    ensures Good(s, i, r)
    decreases |s| - i, 1
  {
    if PeekAt(s, i, "(") then BlockAt(s, i)
    else
      RedirsSimple(s, Exec([]), i);
      match RedirsAt(s, Exec([]), i)
      case Fail(p) => Fail(p)
      case Ok(cmd, next) => ArgsAt(s, cmd, next)
  }

  /** parseblock. */
  function BlockAt(s: CString, i: nat): (r: Parsed)
    requires i <= |s| && PeekAt(s, i, "(")
    ensures Good(s, i, r)
    decreases |s| - i, 0
  {
    match LineAt(s, TokenAt(s, i).next)
    case Fail(p) => Fail(p)
    case Ok(cmd, next) => if PeekAt(s, next, ")") then RedirsAt(s, cmd, TokenAt(s, next).next) else Fail(MissingParen)
  }

  /** parsepipe. */
  function PipeAt(s: CString, i: nat): (r: Parsed)
    requires i <= |s|
    ensures Good(s, i, r)
    decreases |s| - i, 2
  {
    match ExecAt(s, i)
    case Fail(p) => Fail(p)
    case Ok(cmd, next) =>
      if PeekAt(s, next, "|") then
        match PipeAt(s, TokenAt(s, next).next)
        case Fail(p) => Fail(p)
        case Ok(right, next') => Ok(Pipe(cmd, right), next')
      else Ok(cmd, Skip(s, next))
  }

  /** parseline's loop. */
  function BacksAt(s: CString, cmd: Cmd, i: nat): (r: Parsed)
    requires i <= |s| && SpansOk(s, cmd)
    ensures r.Ok? && Good(s, i, r)
    decreases |s| - i
  {
    if PeekAt(s, i, "&") then BacksAt(s, Back(cmd), TokenAt(s, i).next) else Ok(cmd, Skip(s, i))
  }

  /** parseline. */
  function LineAt(s: CString, i: nat): (r: Parsed)
    requires i <= |s|
    ensures Good(s, i, r)
    decreases |s| - i, 3
  {
    match PipeAt(s, i)
    case Fail(p) => Fail(p)
    case Ok(cmd0, next0) =>
      var Ok(cmd, next) := BacksAt(s, cmd0, next0);
      if PeekAt(s, next, ";") then
        match LineAt(s, TokenAt(s, next).next)
        case Fail(p) => Fail(p)
        case Ok(right, next') => Ok(List(cmd, right), next')
      else Ok(cmd, Skip(s, next))
  }

  /** parsecmd. */
  function CmdOf(s: CString): (r: Parsed)
    ensures Good(s, 0, r)
  {
    var r := LineAt(s, 0);
    if r.Ok? && Skip(s, r.next) != |s| then Fail(Leftovers) else r
  }
}
