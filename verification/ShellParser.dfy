/**
  The parser's code (user/sh.c) with its loops and its moving pointer, proved to compute what
  Shell defines, and nulterminate, which cuts the parsed line into C strings in place.
 */
module ShellParser {
  import opened Util
  import opened Shell

  /** Skipping white space first changes nothing that follows. */
  lemma SkipFirst(s: CString, i: nat)
    requires i <= |s|
    ensures Skip(s, Skip(s, i)) == Skip(s, i) && TokenAt(s, Skip(s, i)) == TokenAt(s, i)
    ensures forall toks :: PeekAt(s, Skip(s, i), toks) == PeekAt(s, i, toks)
  {
  }

  lemma {:induction false} SkipStep(s: CString, i: nat, j: nat)
    requires i <= j <= |s| && forall k :: i <= k < j ==> IsSpace(s[k])
    ensures Skip(s, i) == Skip(s, j)
    decreases j - i
  {
    if i < j {
      SkipStep(s, i + 1, j);
    }
  }

  lemma {:induction false} WordStep(s: CString, i: nat, j: nat)
    requires i <= j <= |s| && forall k :: i <= k < j ==> IsWord(s[k])
    ensures WordEnd(s, i) == WordEnd(s, j)
    decreases j - i
  {
    if i < j {
      WordStep(s, i + 1, j);
    }
  }

  method SkipSpace(s: CString, i: nat) returns (j: nat)
    requires i <= |s|
    ensures j == Skip(s, i)
  {
    j := i;
    while j < |s| && IsSpace(s[j])
      invariant i <= j <= |s| && forall k :: i <= k < j ==> IsSpace(s[k])
    {
      j := j + 1;
    }
    SkipStep(s, i, j);
  }

  method GetToken(s: CString, i: nat) returns (t: Token)
    requires i <= |s|
    ensures t == TokenAt(s, i)
  {
    var q := SkipSpace(s, i);
    var p, kind := q, '\0';
    if p < |s| {
      kind := s[p];
      if IsSymbol(s[p]) && s[p] != '>' {
        p := p + 1;
      } else if s[p] == '>' {
        p := p + 1;
        if p < |s| && s[p] == '>' {
          kind := '+';
          p := p + 1;
        }
      } else {
        kind := 'a';
        while p < |s| && !IsSpace(s[p]) && !IsSymbol(s[p])
          invariant q <= p <= |s| && forall k :: q <= k < p ==> IsWord(s[k])
        {
          p := p + 1;
        }
        WordStep(s, q, p);
      }
    }
    var next := SkipSpace(s, p);
    t := Token(kind, q, p, next);
  }

  method Peek(s: CString, i: nat, toks: string) returns (found: bool, j: nat)
    requires i <= |s|
    ensures found == PeekAt(s, i, toks) && j == Skip(s, i)
  {
    j := SkipSpace(s, i);
    found := j < |s| && s[j] in toks;
  }

  method ParseRedirs(s: CString, cmd: Cmd, i: nat) returns (r: Parsed)
    requires i <= |s| && SpansOk(s, cmd)
    ensures r == RedirsAt(s, cmd, i)
  {
    hide TokenAt;
    hide IsSpan;
    hide Skip;
    var c := cmd;
    var more, j := Peek(s, i, "<>");
    SkipFirst(s, i);
    while more
      invariant i <= j <= |s| && SpansOk(s, c) && Skip(s, j) == j && more == PeekAt(s, j, "<>")
      invariant RedirsAt(s, c, j) == RedirsAt(s, cmd, i)
      decreases more, |s| - j
    {
      var op := GetToken(s, j);
      var file := GetToken(s, op.next);
      if file.kind != 'a' {
        return Fail(MissingFile);
      }
      assert RedirsAt(s, c, j) == RedirsAt(s, Redir(c, Span(file.q, file.eq), ModeOf(op.kind)), file.next);
      c := Redir(c, Span(file.q, file.eq), ModeOf(op.kind));
      SkipFirst(s, file.next);
      more, j := Peek(s, file.next, "<>");
    }
    r := Ok(c, j);
  }

  method ParseExec(s: CString, i: nat) returns (r: Parsed)
    requires i <= |s|
    ensures r == ExecAt(s, i)
    decreases |s| - i, 1
  {
    var block, j := Peek(s, i, "(");
    SkipFirst(s, i);
    if block {
      r := ParseBlock(s, j);
      return;
    }
    RedirsSimple(s, Exec([]), i);
    r := ParseRedirs(s, Exec([]), j);
    if r.Fail? {
      return;
    }
    var argc, done, stop := 0, false, false;
    while !done
      invariant r.Ok? && j <= r.next <= |s| && IsSimple(r.cmd) && SpansOk(s, r.cmd) && argc == Argc(r.cmd)
      invariant if done then r == ExecAt(s, i) else ExecAt(s, i) == ArgsAt(s, r.cmd, r.next)
      decreases !done, |s| - r.next
    {
      var at;
      stop, at := Peek(s, r.next, "|)&;");
      SkipFirst(s, r.next);
      if stop {
        r := Ok(r.cmd, at);
        done := true;
      } else {
        var t := GetToken(s, at);
        if t.kind == '\0' {
          r := Ok(r.cmd, t.next);
          done := true;
        } else {
          if t.kind != 'a' {
            return Fail(Syntax);
          }
          if argc + 1 >= MAXARGS {
            return Fail(TooManyArgs);
          }
          AddArgSpans(s, r.cmd, Span(t.q, t.eq));
          var c := AddArg(r.cmd, Span(t.q, t.eq));
          argc := argc + 1;
          RedirsSimple(s, c, t.next);
          r := ParseRedirs(s, c, t.next);
          if r.Fail? {
            return;
          }
        }
      }
    }
  }

  method ParseBlock(s: CString, i: nat) returns (r: Parsed)
    requires i <= |s| && PeekAt(s, i, "(")
    ensures r == BlockAt(s, i)
    decreases |s| - i, 0
  {
    var open := GetToken(s, i);
    r := ParseLine(s, open.next);
    if r.Fail? {
      return;
    }
    var close, j := Peek(s, r.next, ")");
    if !close {
      return Fail(MissingParen);
    }
    SkipFirst(s, r.next);
    var t := GetToken(s, j);
    r := ParseRedirs(s, r.cmd, t.next);
  }

  method ParsePipe(s: CString, i: nat) returns (r: Parsed)
    requires i <= |s|
    ensures r == PipeAt(s, i)
    decreases |s| - i, 2
  {
    r := ParseExec(s, i);
    if r.Fail? {
      return;
    }
    var bar, j := Peek(s, r.next, "|");
    SkipFirst(s, r.next);
    if bar {
      var t := GetToken(s, j);
      var right := ParsePipe(s, t.next);
      r := if right.Fail? then right else Ok(Pipe(r.cmd, right.cmd), right.next);
    } else {
      r := Ok(r.cmd, j);
    }
  }

  method ParseLine(s: CString, i: nat) returns (r: Parsed)
    requires i <= |s|
    ensures r == LineAt(s, i)
    decreases |s| - i, 3
  {
    r := ParsePipe(s, i);
    if r.Fail? {
      return;
    }
    ghost var first := r;
    var cmd := r.cmd;
    var amp, j := Peek(s, r.next, "&");
    SkipFirst(s, r.next);
    while amp
      invariant i <= j <= |s| && SpansOk(s, cmd) && Skip(s, j) == j && amp == PeekAt(s, j, "&")
      invariant BacksAt(s, cmd, j) == BacksAt(s, first.cmd, first.next)
      decreases amp, |s| - j
    {
      var t := GetToken(s, j);
      cmd := Back(cmd);
      SkipFirst(s, t.next);
      amp, j := Peek(s, t.next, "&");
    }
    var semi;
    semi, j := Peek(s, j, ";");
    if semi {
      var t := GetToken(s, j);
      var right := ParseLine(s, t.next);
      r := if right.Fail? then right else Ok(List(cmd, right.cmd), right.next);
    } else {
      r := Ok(cmd, j);
    }
  }

  /** parsecmd up to nulterminate: every argument and file name of the result is a whole word
      of the line. */
  method ParseCmd(s: CString) returns (r: Parsed)
    ensures r == CmdOf(s)
  {
    r := ParseLine(s, 0);
    if r.Fail? {
      return;
    }
    var _, j := Peek(s, r.next, "");
    if j != |s| {
      r := Fail(Leftovers);
    }
  }

  // ---------- nulterminate ----------

  /** Where nulterminate writes. */
  ghost function Ends(c: Cmd): set<nat> {
    match c
    case Exec(argv) => set k | 0 <= k < |argv| :: argv[k].eq
    case Redir(cmd, file, _) => Ends(cmd) + {file.eq}
    case Pipe(l, r) => Ends(l) + Ends(r)
    case List(l, r) => Ends(l) + Ends(r)
    case Back(cmd) => Ends(cmd)
  }

  /** The spans the command points at. */
  ghost function Spans(c: Cmd): set<Span> {
    match c
    case Exec(argv) => set k | 0 <= k < |argv| :: argv[k]
    case Redir(cmd, file, _) => Spans(cmd) + {file}
    case Pipe(l, r) => Spans(l) + Spans(r)
    case List(l, r) => Spans(l) + Spans(r)
    case Back(cmd) => Spans(cmd)
  }

  method Nulterminate(buf: array<char>, cmd: Cmd, ghost s: CString)
    requires buf.Length == |s| + 1 && SpansOk(s, cmd)
    modifies buf
    ensures forall k :: 0 <= k < buf.Length ==> buf[k] == if k in Ends(cmd) then '\0' else old(buf[k])
  {
    match cmd {
      case Exec(argv) =>
        var i := 0;
        while i < |argv|
          invariant 0 <= i <= |argv|
          invariant forall k :: 0 <= k < buf.Length ==>
                      buf[k] == if k in Ends(Exec(argv[..i])) then '\0' else old(buf[k])
        {
          assert argv[..i + 1] == argv[..i] + [argv[i]];
          EndsMore(argv[..i], argv[i]);
          buf[argv[i].eq] := '\0';
          i := i + 1;
        }
        assert argv[..i] == argv;
      case Redir(c, file, _) =>
        Nulterminate(buf, c, s);
        buf[file.eq] := '\0';
      case Pipe(l, r) =>
        Nulterminate(buf, l, s);
        Nulterminate(buf, r, s);
      case List(l, r) =>
        Nulterminate(buf, l, s);
        Nulterminate(buf, r, s);
      case Back(c) =>
        Nulterminate(buf, c, s);
    }
  }

  lemma EndsMore(argv: seq<Span>, sp: Span)
    ensures Ends(Exec(argv + [sp])) == Ends(Exec(argv)) + {sp.eq}
  {
    var more := argv + [sp];
    forall k | 0 <= k < |argv| ensures argv[k].eq in Ends(Exec(more)) {
      assert more[k] == argv[k];
    }
    assert more[|argv|] == sp;
  }

  /** The C string at `q`. */
  ghost predicate ReadsAs(buf: seq<char>, q: nat, text: string) {
    && q + |text| < |buf| && buf[q..q + |text|] == text && buf[q + |text|] == '\0'
    && forall k :: 0 <= k < |text| ==> text[k] != '\0'
  }

  /** After nulterminate every argument and file pointer reads as exactly its token: no NUL
      falls inside another token. */
  lemma EverySpanReads(s: CString, cmd: Cmd, buf: seq<char>, sp: Span)
    requires SpansOk(s, cmd) && sp in Spans(cmd) && |buf| == |s| + 1
    requires forall k :: 0 <= k < |buf| ==> buf[k] == if k in Ends(cmd) then '\0' else (s + ['\0'])[k]
    ensures IsSpan(s, sp) && ReadsAs(buf, sp.q, s[sp.q..sp.eq])
  {
    SpanIsSpan(s, cmd, sp);
    forall k | sp.q <= k < sp.eq ensures k !in Ends(cmd) {
      if k in Ends(cmd) {
        EndNotWord(s, cmd, k);
      }
    }
    assert buf[sp.q..sp.eq] == s[sp.q..sp.eq];
  }

  /** parsecmd on the line `s` in `buf`. */
  method ParseInPlace(buf: array<char>, s: CString) returns (r: Parsed)
    requires buf[..] == s + ['\0']
    modifies buf
    ensures r == CmdOf(s)
    ensures r.Ok? ==> forall sp :: sp in Spans(r.cmd) ==> IsSpan(s, sp) && ReadsAs(buf[..], sp.q, s[sp.q..sp.eq])
    ensures r.Fail? ==> buf[..] == old(buf[..])
  {
    r := ParseCmd(s);
    if r.Ok? {
      assert forall k :: 0 <= k < buf.Length ==> buf[k] == (s + ['\0'])[k];
      Nulterminate(buf, r.cmd, s);
      forall sp | sp in Spans(r.cmd) ensures IsSpan(s, sp) && ReadsAs(buf[..], sp.q, s[sp.q..sp.eq]) {
        EverySpanReads(s, r.cmd, buf[..], sp);
      }
    }
  }

  lemma {:induction false} SpanIsSpan(s: CString, c: Cmd, sp: Span)
    requires SpansOk(s, c) && sp in Spans(c)
    ensures IsSpan(s, sp) && sp.eq in Ends(c)
  {
    match c
    case Exec(_) =>
    case Redir(cmd, file, _) => if sp != file { SpanIsSpan(s, cmd, sp); }
    case Pipe(l, r) => if sp in Spans(l) { SpanIsSpan(s, l, sp); } else { SpanIsSpan(s, r, sp); }
    case List(l, r) => if sp in Spans(l) { SpanIsSpan(s, l, sp); } else { SpanIsSpan(s, r, sp); }
    case Back(cmd) => SpanIsSpan(s, cmd, sp);
  }

  lemma {:induction false} EndNotWord(s: CString, c: Cmd, k: nat)
    requires SpansOk(s, c) && k in Ends(c)
    ensures k <= |s| && (k < |s| ==> !IsWord(s[k]))
  {
    match c
    case Exec(_) =>
    case Redir(cmd, file, _) => if k != file.eq { EndNotWord(s, cmd, k); }
    case Pipe(l, r) => if k in Ends(l) { EndNotWord(s, l, k); } else { EndNotWord(s, r, k); }
    case List(l, r) => if k in Ends(l) { EndNotWord(s, l, k); } else { EndNotWord(s, r, k); }
    case Back(cmd) => EndNotWord(s, cmd, k);
  }
}
