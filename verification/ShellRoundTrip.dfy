/**
  Printing a command tree and parsing it again (user/sh.c).  Every token is printed with one
  space behind it, and a command in a place where the grammar does not allow it is
  parenthesised; the parser gives back the same tree.
 */
module ShellRoundTrip {
  import opened Util
  import opened Shell

  // ---------- trees with their words spelled out ----------

  datatype Tree =
    | ExecT(argv: seq<string>)
    | RedirT(cmd: Tree, file: string, mode: Mode)
    | PipeT(left: Tree, right: Tree)
    | ListT(left: Tree, right: Tree)
    | BackT(cmd: Tree)

  predicate IsWordString(w: string) {
    |w| > 0 && forall k :: 0 <= k < |w| ==> IsWord(w[k])
  }

  /** Words everywhere, and no more arguments than an exec has room for. */
  predicate Printable(t: Tree) {
    match t
    case ExecT(argv) => |argv| < MAXARGS && forall k :: 0 <= k < |argv| ==> IsWordString(argv[k])
    case RedirT(cmd, file, _) => Printable(cmd) && IsWordString(file)
    case PipeT(l, r) => Printable(l) && Printable(r)
    case ListT(l, r) => Printable(l) && Printable(r)
    case BackT(cmd) => Printable(cmd)
  }

  /** What a parsed command says. */
  ghost function Text(s: CString, c: Cmd): Tree
    requires SpansOk(s, c)
  {
    match c
    case Exec(argv) => ExecT(Words(s, argv))
    case Redir(cmd, file, mode) => RedirT(Text(s, cmd), s[file.q..file.eq], mode)
    case Pipe(l, r) => PipeT(Text(s, l), Text(s, r))
    case List(l, r) => ListT(Text(s, l), Text(s, r))
    case Back(cmd) => BackT(Text(s, cmd))
  }

  ghost function Words(s: CString, argv: seq<Span>): (r: seq<string>)
    requires forall k :: 0 <= k < |argv| ==> IsSpan(s, argv[k])
    ensures |r| == |argv|
  {
    seq(|argv|, k requires 0 <= k < |argv| && IsSpan(s, argv[k]) => s[argv[k].q..argv[k].eq])
  }

  // ---------- printing ----------

  /** Where a command stands: a line, before & or ;, in a pipeline, or as one command. */
  datatype Level = AtLine | AtBack | AtPipe | AtExec

  function OpText(m: Mode): string {
    match m
    case Read => "< "
    case Write => "> "
    case Append => ">> "
  }

  function WordsText(argv: seq<string>): string {
    if argv == [] then "" else argv[0] + (" " + WordsText(argv[1..]))
  }

  /** How many levels below `lv` the printer can take the command apart. */
  function Steps(t: Tree, lv: Level): nat {
    var home := match t case ListT(_, _) => 0 case BackT(_) => 1 case PipeT(_, _) => 2 case _ => 3;
    var at := match lv case AtLine => 0 case AtBack => 1 case AtPipe => 2 case AtExec => 3;
    if at <= home then home - at else home + 4 - at
  }

  function Print(t: Tree, lv: Level): string
    decreases t, Steps(t, lv)
  {
    match lv
    case AtLine => if t.ListT? then Print(t.left, AtBack) + ("; " + Print(t.right, AtLine)) else Print(t, AtBack)
    case AtBack => if t.BackT? then Print(t.cmd, AtBack) + "& " else Print(t, AtPipe)
    case AtPipe => if t.PipeT? then Print(t.left, AtExec) + ("| " + Print(t.right, AtPipe)) else Print(t, AtExec)
    case AtExec =>
      if t.ExecT? then WordsText(t.argv)
      else if t.RedirT? then Print(t.cmd, AtExec) + (OpText(t.mode) + (t.file + " "))
      else "( " + (Print(t, AtLine) + ") ")
  }

  // ---------- tokens of the printed text ----------

  /** Nothing, or no white space first. */
  predicate Clean(u: string) {
    u == "" || !IsSpace(u[0])
  }

  /** The line from `i` on is `u`. */
  ghost predicate At(s: CString, i: nat, u: string) {
    i <= |s| && s[i..] == u && Clean(u)
  }

  lemma AtPeek(s: CString, i: nat, u: string, toks: string)
    requires At(s, i, u)
    ensures Skip(s, i) == i && (PeekAt(s, i, toks) <==> u != "" && u[0] in toks)
    ensures u == "" <==> i == |s|
  {
    assert u != "" ==> s[i] == u[0];
  }

  lemma SkipOne(s: CString, i: nat, u: string)
    requires i <= |s| && s[i..] == " " + u && Clean(u)
    ensures Skip(s, i) == i + 1 && At(s, i + 1, u)
  {
    assert s[i] == ' ';
    assert s[i + 1..] == u;
    assert u != "" ==> s[i + 1] == u[0];
    assert Skip(s, i) == Skip(s, i + 1);
  }

  lemma AtWord(s: CString, i: nat, w: string, u: string)
    requires IsWordString(w) && At(s, i, w + (" " + u)) && Clean(u)
    ensures TokenAt(s, i) == Token('a', i, i + |w|, i + |w| + 1) && IsSpan(s, Span(i, i + |w|)) && s[i..i + |w|] == w
    ensures At(s, i + |w| + 1, u)
  {
    var all := w + (" " + u);
    var e := i + |w|;
    assert forall k :: 0 <= k < |all| ==> s[i + k] == all[k];
    forall k | i <= k < e ensures s[k] == w[k - i] {
      assert s[i + (k - i)] == all[k - i];
    }
    assert s[e] == ' ';
    assert s[e..] == " " + u by {
      assert s[i..][|w|..] == s[e..];
    }
    SkipOne(s, e, u);
    assert s[i..e] == w;
    assert s[i] == w[0] && Skip(s, i) == i;
    WordEnds(s, i, e);
  }

  lemma {:induction false} WordEnds(s: CString, i: nat, e: nat)
    requires i <= e < |s| && !IsWord(s[e]) && forall k :: i <= k < e ==> IsWord(s[k])
    ensures WordEnd(s, i) == e
    decreases e - i
  {
    if i < e {
      WordEnds(s, i + 1, e);
    }
  }

  lemma AtSymbol(s: CString, i: nat, c: char, u: string)
    requires IsSymbol(c) && At(s, i, [c] + (" " + u)) && Clean(u)
    ensures TokenAt(s, i) == Token(c, i, i + 1, i + 2) && At(s, i + 2, u) && i < |s| && s[i] == c && Skip(s, i) == i
  {
    assert s[i] == c && s[i + 1] == ' ';
    assert s[i + 1..] == " " + u by {
      assert s[i..][1..] == s[i + 1..];
    }
    SkipOne(s, i + 1, u);
  }

  /** A redirection operator, of one character or two. */
  lemma AtOp(s: CString, i: nat, m: Mode, u: string)
    requires At(s, i, OpText(m) + u) && Clean(u)
    ensures PeekAt(s, i, "<>") && ModeOf(TokenAt(s, i).kind) == m && At(s, TokenAt(s, i).next, u)
  {
    match m
    case Read =>
      assert OpText(m) + u == ['<'] + (" " + u);
      AtSymbol(s, i, '<', u);
    case Write =>
      assert OpText(m) + u == ['>'] + (" " + u);
      AtSymbol(s, i, '>', u);
    case Append =>
      assert s[i] == '>' && s[i + 1] == '>';
      assert s[i + 2..] == " " + u by {
        assert s[i..][2..] == s[i + 2..];
      }
      SkipOne(s, i + 2, u);
  }

  // ---------- printed text starts cleanly ----------

  lemma {:induction false} PrintClean(t: Tree, lv: Level, u: string)
    requires Printable(t) && Clean(u)
    ensures Clean(Print(t, lv) + u)
    decreases t, Steps(t, lv)
  {
    hide WordsText;
    hide OpText;
    hide IsWordString;
    match lv
    case AtLine =>
      if t.ListT? {
        var v := "; " + Print(t.right, AtLine);
        PrintClean(t.left, AtBack, v + u);
        Regroup(Print(t.left, AtBack), v, u);
      } else {
        PrintClean(t, AtBack, u);
      }
    case AtBack =>
      if t.BackT? {
        PrintClean(t.cmd, AtBack, "& " + u);
        Regroup(Print(t.cmd, AtBack), "& ", u);
      } else {
        PrintClean(t, AtPipe, u);
      }
    case AtPipe =>
      if t.PipeT? {
        var v := "| " + Print(t.right, AtPipe);
        PrintClean(t.left, AtExec, v + u);
        Regroup(Print(t.left, AtExec), v, u);
      } else {
        PrintClean(t, AtExec, u);
      }
    case AtExec =>
      if t.ExecT? {
        WordsClean(t.argv, u);
      } else if t.RedirT? {
        var v := t.file + " ";
        OpClean(t.mode, v + u);
        Regroup(OpText(t.mode), v, u);
        PrintClean(t.cmd, AtExec, (OpText(t.mode) + v) + u);
        Regroup(Print(t.cmd, AtExec), OpText(t.mode) + v, u);
      }
  }

  lemma Regroup(a: string, b: string, c: string)
    ensures (a + b) + c == a + (b + c)
  {
  }

  lemma WordsClean(argv: seq<string>, u: string)
    requires Clean(u) && forall k :: 0 <= k < |argv| ==> IsWordString(argv[k])
    ensures Clean(WordsText(argv) + u)
  {
    if argv != [] {
      assert (WordsText(argv) + u)[0] == argv[0][0];
    }
  }

  // ---------- parsing it back ----------

  /** Text that may follow a command at each level. */
  predicate Follows(lv: Level, u: string) {
    u == "" || match lv
               case AtLine => u[0] == ')'
               case AtBack => u[0] in ");&"
               case AtPipe => u[0] in ");&"
               case AtExec => u[0] in ");&|<>"
  }

  /** What parseexec still does once it has read `c`. */
  ghost function ExecRest(s: CString, c: Cmd, j: nat): Parsed
    requires j <= |s| && SpansOk(s, c)
  {
    if IsSimple(c) then
      RedirsSimple(s, c, j);
      match RedirsAt(s, c, j)
      case Fail(p) => Fail(p)
      case Ok(c', next) => ArgsAt(s, c', next)
    else RedirsAt(s, c, j)
  }

  lemma NoRedirs(s: CString, c: Cmd, i: nat, u: string)
    requires SpansOk(s, c) && At(s, i, u) && (u == "" || u[0] !in "<>")
    ensures RedirsAt(s, c, i) == Ok(c, i)
  {
    AtPeek(s, i, u, "<>");
  }

  lemma WordIsNoSymbol(c: char)
    requires IsWord(c)
    ensures c !in "<>" && c !in "|)&;" && c !in "("
  {
  }

  /** One argument. */
  lemma OneArg(s: CString, c: Cmd, i: nat, w: string, u: string)
    requires SpansOk(s, c) && IsSimple(c) && Argc(c) + 1 < MAXARGS
    requires IsWordString(w) && At(s, i, w + (" " + u)) && Clean(u)
    ensures IsSpan(s, Span(i, i + |w|)) && s[i..i + |w|] == w && At(s, i + |w| + 1, u)
    ensures SpansOk(s, AddArg(c, Span(i, i + |w|)))
    ensures ExecRest(s, c, i) == ExecRest(s, AddArg(c, Span(i, i + |w|)), i + |w| + 1)
  {
    hide RedirsAt;
    hide ArgsAt;
    hide ExecRest;
    hide SpansOk;
    hide AddArg;
    hide IsSimple;
    hide Argc;
    hide TokenAt;
    hide PeekAt;
    hide Skip;
    hide IsSpan;
    var all := w + (" " + u);
    assert all[0] == w[0];
    WordIsNoSymbol(w[0]);
    NoRedirs(s, c, i, all);
    AtPeek(s, i, all, "|)&;");
    AtWord(s, i, w, u);
    ArgStep(s, c, i);
  }

  lemma ArgStep(s: CString, c: Cmd, i: nat)
    requires i <= |s| && SpansOk(s, c) && IsSimple(c) && Argc(c) + 1 < MAXARGS && RedirsAt(s, c, i) == Ok(c, i)
    requires !PeekAt(s, i, "|)&;") && TokenAt(s, i).kind == 'a'
    ensures var t := TokenAt(s, i);
            var c' := AddArg(c, Span(t.q, t.eq));
            SpansOk(s, c') && ExecRest(s, c, i) == ExecRest(s, c', t.next)
  {
    var t := TokenAt(s, i);
    AddArgSpans(s, c, Span(t.q, t.eq));
    hide TokenAt;
    hide Skip;
    hide SpansOk;
    hide IsSpan;
    hide RedirsAt;
    hide PeekAt;
    hide AddArg;
    hide Argc;
    assert ExecRest(s, c, i) == ArgsAt(s, c, i);
  }

  lemma WordsAppend(s: CString, argv: seq<Span>, sp: Span)
    requires IsSpan(s, sp) && forall k :: 0 <= k < |argv| ==> IsSpan(s, argv[k])
    ensures Words(s, argv + [sp]) == Words(s, argv) + [s[sp.q..sp.eq]]
  {
  }

  /** All of an exec's arguments. */
  lemma {:induction false} AllArgs(s: CString, argv: seq<Span>, i: nat, more: seq<string>, u: string) returns (argv': seq<Span>, j: nat)
    requires SpansOk(s, Exec(argv)) && |argv| + |more| < MAXARGS
    requires forall k :: 0 <= k < |more| ==> IsWordString(more[k])
    requires At(s, i, WordsText(more) + u) && Clean(u)
    ensures SpansOk(s, Exec(argv')) && Words(s, argv') == Words(s, argv) + more && At(s, j, u)
    ensures ExecRest(s, Exec(argv), i) == ExecRest(s, Exec(argv'), j)
    decreases |more|
  {
    hide ExecRest;
    hide At;
    hide IsSpan;
    hide Words;
    hide IsWordString;
    hide Clean;
    if more == [] {
      argv', j := argv, i;
      assert WordsText(more) + u == u;
    } else {
      var w := more[0];
      var v := WordsText(more[1..]) + u;
      WordsClean(more[1..], u);
      assert WordsText(more) + u == w + (" " + v);
      OneArg(s, Exec(argv), i, w, v);
      var sp := Span(i, i + |w|);
      WordsAppend(s, argv, sp);
      argv', j := AllArgs(s, argv + [sp], i + |w| + 1, more[1..], u);
      assert Words(s, argv) + [w] + more[1..] == Words(s, argv) + more;
    }
  }

  /** One redirection. */
  lemma OneRedir(s: CString, c: Cmd, i: nat, m: Mode, w: string, u: string) returns (c': Cmd, j: nat)
    requires SpansOk(s, c) && IsWordString(w) && At(s, i, OpText(m) + (w + (" " + u))) && Clean(u)
    ensures SpansOk(s, c') && Text(s, c') == RedirT(Text(s, c), w, m) && At(s, j, u)
    ensures ExecRest(s, c, i) == ExecRest(s, c', j)
  {
    AtOp(s, i, m, w + (" " + u));
    var op := TokenAt(s, i);
    AtWord(s, op.next, w, u);
    var file := TokenAt(s, op.next);
    c', j := Redir(c, Span(file.q, file.eq), m), file.next;
    assert RedirsAt(s, c, i) == RedirsAt(s, c', j);
  }

  /** parseexec stops before anything but a redirection or a word. */
  lemma RestEnds(s: CString, c: Cmd, j: nat, u: string)
    requires SpansOk(s, c) && At(s, j, u) && Follows(AtExec, u) && (u == "" || u[0] !in "<>")
    ensures ExecRest(s, c, j) == Ok(c, j)
  {
    NoRedirs(s, c, j, u);
    AtPeek(s, j, u, "|)&;");
    hide RedirsAt;
    hide SpansOk;
    if IsSimple(c) {
      assert ArgsAt(s, c, j) == Ok(c, j);
    }
  }

  /** A parsed command that is no exec under redirections says so. */
  lemma TextSimple(s: CString, c: Cmd)
    requires SpansOk(s, c)
    ensures IsSimple(c) ==> Text(s, c).ExecT? || Text(s, c).RedirT?
  {
  }

  /** A command printed in parentheses. */
  lemma ParenBack(s: CString, i: nat, all: string, c: Cmd, j: nat, u: string)
    requires At(s, i, "( " + all) && Clean(all) && i + 2 <= |s| && LineAt(s, i + 2) == Ok(c, j)
    requires At(s, j, ") " + u) && Clean(u) && SpansOk(s, c) && !IsSimple(c)
    ensures At(s, j + 2, u) && ExecAt(s, i) == ExecRest(s, c, j + 2)
  {
    hide RedirsAt;
    hide ArgsAt;
    hide LineAt;
    hide SpansOk;
    hide IsSimple;
    assert "( " + all == ['('] + (" " + all);
    AtSymbol(s, i, '(', all);
    AtPeek(s, i, "( " + all, "(");
    assert ") " + u == [')'] + (" " + u);
    AtSymbol(s, j, ')', u);
    AtPeek(s, j, ") " + u, ")");
    hide TokenAt;
    hide Skip;
    hide PeekAt;
    hide At;
    assert ExecAt(s, i) == BlockAt(s, i);
  }

  /** Where the text inside parentheses starts. */
  lemma ParenOpens(s: CString, i: nat, all: string)
    requires At(s, i, "( " + all) && Clean(all)
    ensures At(s, i + 2, all)
  {
    assert "( " + all == ['('] + (" " + all);
    AtSymbol(s, i, '(', all);
  }

  lemma {:induction false} ExecBack(t: Tree, s: CString, i: nat, u: string) returns (c: Cmd, j: nat)
    requires Printable(t) && At(s, i, Print(t, AtExec) + u) && Clean(u) && Follows(AtExec, u)
    ensures SpansOk(s, c) && Text(s, c) == t && At(s, j, u) && ExecAt(s, i) == ExecRest(s, c, j)
    decreases t, Steps(t, AtExec)
  {
    hide At;
    hide Clean;
    hide ExecRest;
    hide ExecAt;
    hide LineAt;
    hide IsSpan;
    hide Words;
    if t.ExecT? {
      c, j := PlainBack(t.argv, s, i, u);
    } else if t.RedirT? {
      var v := OpText(t.mode) + (t.file + (" " + u));
      assert Print(t, AtExec) + u == Print(t.cmd, AtExec) + v;
      OpClean(t.mode, t.file + (" " + u));
      var c0, j0 := ExecBack(t.cmd, s, i, v);
      c, j := OneRedir(s, c0, j0, t.mode, t.file, u);
    } else {
      var v := Print(t, AtLine) + (") " + u);
      assert Print(t, AtExec) + u == "( " + v;
      CloseClean(u);
      PrintClean(t, AtLine, ") " + u);
      ParenOpens(s, i, v);
      var j0;
      c, j0 := LineBack(t, s, i + 2, ") " + u);
      TextSimple(s, c);
      ParenBack(s, i, v, c, j0, u);
      j := j0 + 2;
    }
  }

  lemma OpClean(m: Mode, v: string)
    ensures Clean(OpText(m) + v) && Follows(AtExec, OpText(m) + v)
  {
    assert (OpText(m) + v)[0] == OpText(m)[0];
  }

  lemma BarClean(v: string)
    ensures Clean("| " + v) && Follows(AtExec, "| " + v)
  {
  }

  lemma CloseClean(u: string)
    ensures Clean(") " + u) && Follows(AtLine, ") " + u)
  {
  }

  /** A text that begins with no parenthesis is read as an exec. */
  lemma ExecStarts(s: CString, i: nat)
    requires i <= |s| && !PeekAt(s, i, "(")
    ensures ExecAt(s, i) == ExecRest(s, Exec([]), i)
  {
    hide RedirsAt;
    hide ArgsAt;
    hide BlockAt;
    hide PeekAt;
  }

  lemma PlainStarts(argv: seq<string>, s: CString, i: nat, u: string)
    requires Printable(ExecT(argv)) && At(s, i, WordsText(argv) + u) && Clean(u) && Follows(AtExec, u)
    ensures i <= |s| && !PeekAt(s, i, "(")
  {
    var all := WordsText(argv) + u;
    AtPeek(s, i, all, "(");
    if argv != [] {
      assert all[0] == argv[0][0];
      WordIsNoSymbol(argv[0][0]);
    } else {
      assert all == u;
    }
  }

  /** An exec. */
  lemma PlainBack(argv: seq<string>, s: CString, i: nat, u: string) returns (c: Cmd, j: nat)
    requires Printable(ExecT(argv)) && At(s, i, WordsText(argv) + u) && Clean(u) && Follows(AtExec, u)
    ensures SpansOk(s, c) && Text(s, c) == ExecT(argv) && At(s, j, u) && ExecAt(s, i) == ExecRest(s, c, j)
  {
    hide ExecRest;
    hide ExecAt;
    hide WordsText;
    hide Follows;
    PlainStarts(argv, s, i, u);
    ExecStarts(s, i);
    var spans;
    spans, j := AllArgs(s, [], i, argv, u);
    c := Exec(spans);
    assert Words(s, []) + argv == argv;
  }

  lemma {:induction false} PipeBack(t: Tree, s: CString, i: nat, u: string) returns (c: Cmd, j: nat)
    requires Printable(t) && At(s, i, Print(t, AtPipe) + u) && Clean(u) && Follows(AtPipe, u)
    ensures SpansOk(s, c) && Text(s, c) == t && At(s, j, u) && PipeAt(s, i) == Ok(c, j)
    decreases t, Steps(t, AtPipe)
  {
    hide At;
    hide ExecRest;
    hide ExecAt;
    hide TokenAt;
    hide Skip;
    hide Clean;
    hide IsSpan;
    if t.PipeT? {
      var w := Print(t.right, AtPipe) + u;
      var v := "| " + w;
      assert Print(t, AtPipe) + u == Print(t.left, AtExec) + v;
      PrintClean(t.right, AtPipe, u);
      BarClean(w);
      var c0, j0 := ExecBack(t.left, s, i, v);
      RestEnds(s, c0, j0, v);
      AtPeek(s, j0, v, "|");
      assert v == ['|'] + (" " + w);
      AtSymbol(s, j0, '|', w);
      var c1, j1 := PipeBack(t.right, s, j0 + 2, u);
      c, j := Pipe(c0, c1), j1;
    } else {
      c, j := ExecBack(t, s, i, u);
      RestEnds(s, c, j, u);
      AtPeek(s, j, u, "|");
    }
  }

  /** parsepipe and parseline's loop. */
  ghost function BackAt(s: CString, i: nat): Parsed
    requires i <= |s|
  {
    match PipeAt(s, i)
    case Fail(p) => Fail(p)
    case Ok(c, next) => BacksAt(s, c, next)
  }

  lemma {:induction false} BackBack(t: Tree, s: CString, i: nat, u: string) returns (c: Cmd, j: nat)
    requires Printable(t) && At(s, i, Print(t, AtBack) + u) && Clean(u) && Follows(AtBack, u)
    ensures SpansOk(s, c) && Text(s, c) == t && At(s, j, u) && BackAt(s, i) == BacksAt(s, c, j)
    decreases t, Steps(t, AtBack)
  {
    hide At;
    hide PipeAt;
    hide TokenAt;
    hide Skip;
    if t.BackT? {
      var v := "& " + u;
      assert Print(t, AtBack) + u == Print(t.cmd, AtBack) + v;
      var c0, j0 := BackBack(t.cmd, s, i, v);
      AtPeek(s, j0, v, "&");
      assert v == ['&'] + (" " + u);
      AtSymbol(s, j0, '&', u);
      c, j := Back(c0), j0 + 2;
    } else {
      c, j := PipeBack(t, s, i, u);
    }
  }

  lemma {:induction false} LineBack(t: Tree, s: CString, i: nat, u: string) returns (c: Cmd, j: nat)
    requires Printable(t) && At(s, i, Print(t, AtLine) + u) && Clean(u) && Follows(AtLine, u)
    ensures SpansOk(s, c) && Text(s, c) == t && At(s, j, u) && LineAt(s, i) == Ok(c, j)
    decreases t, Steps(t, AtLine)
  {
    hide At;
    hide PipeAt;
    hide TokenAt;
    hide Skip;
    if t.ListT? {
      var w := Print(t.right, AtLine) + u;
      var v := "; " + w;
      assert Print(t, AtLine) + u == Print(t.left, AtBack) + v;
      PrintClean(t.right, AtLine, u);
      var c0, j0 := BackBack(t.left, s, i, v);
      AtPeek(s, j0, v, "&");
      AtPeek(s, j0, v, ";");
      assert v == [';'] + (" " + w);
      AtSymbol(s, j0, ';', w);
      var c1, j1 := LineBack(t.right, s, j0 + 2, u);
      c, j := List(c0, c1), j1;
      assert BackAt(s, i) == Ok(c0, j0);
    } else {
      c, j := BackBack(t, s, i, u);
      AtPeek(s, j, u, "&");
      AtPeek(s, j, u, ";");
      assert BackAt(s, i) == Ok(c, j);
    }
  }

  /** Round trip: any tree of words, with no more arguments than fit, printed and parsed again
      is the same tree. */
  lemma RoundTrip(t: Tree)
    requires Printable(t)
    ensures forall k :: 0 <= k < |Print(t, AtLine)| ==> Print(t, AtLine)[k] != '\0'
    ensures var r := CmdOf(Print(t, AtLine)); r.Ok? && Text(Print(t, AtLine), r.cmd) == t
  {
    PrintNoNul(t, AtLine);
    var s: CString := Print(t, AtLine);
    PrintClean(t, AtLine, "");
    assert Print(t, AtLine) + "" == s && s[0..] == s;
    var c, j := LineBack(t, s, 0, "");
    AtPeek(s, j, "", "");
  }

  lemma {:induction false} PrintNoNul(t: Tree, lv: Level)
    requires Printable(t)
    ensures forall k :: 0 <= k < |Print(t, lv)| ==> Print(t, lv)[k] != '\0'
    decreases t, Steps(t, lv)
  {
    match lv
    case AtLine => if t.ListT? { PrintNoNul(t.left, AtBack); PrintNoNul(t.right, AtLine); } else { PrintNoNul(t, AtBack); }
    case AtBack => if t.BackT? { PrintNoNul(t.cmd, AtBack); } else { PrintNoNul(t, AtPipe); }
    case AtPipe => if t.PipeT? { PrintNoNul(t.left, AtExec); PrintNoNul(t.right, AtPipe); } else { PrintNoNul(t, AtExec); }
    case AtExec =>
      if t.ExecT? {
        WordsNoNul(t.argv);
      } else if t.RedirT? {
        PrintNoNul(t.cmd, AtExec);
      } else {
        PrintNoNul(t, AtLine);
      }
  }

  lemma {:induction false} WordsNoNul(argv: seq<string>)
    requires forall k :: 0 <= k < |argv| ==> IsWordString(argv[k])
    ensures forall k :: 0 <= k < |WordsText(argv)| ==> WordsText(argv)[k] != '\0'
  {
    if argv != [] {
      WordsNoNul(argv[1..]);
    }
  }
}
