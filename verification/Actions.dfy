/** The agent's write_file action (env.py) against what grading later takes from the workspace. */
module Actions {
  import opened Base
  import opened Lex
  import opened TarPath
  import opened TarWriter
  import opened TarDir
  import opened TarExtract
  import opened Workspace
  import opened Grading

  /** A TaskError is reported to the agent; any other exception fails the step. */
  datatype ActionError = Reported(error: TaskError) | Raised

  /**
   * What a workspace without symbolic links becomes; `content` is None when it is no string. The path
   * '.' is the workspace itself, which cannot be written as a file.
   */
  ghost function Written(t: Policy, ws: Fs, rel: Path, content: Option<Bytes>): Result<Fs, ActionError> {
    match NormalizeRelpath(rel)
    case Err(e) => Err(Reported(e))
    case Ok(p) =>
      if !EditablePlain(t, p) then Err(Reported(NotEditable))
      else if content.None? then Err(Reported(BadContent))
      else if |content.value| > MAX_WRITE_BYTES then Err(Reported(TooLarge))
      else if p == [DOT] then Err(Raised)
      else
        match WriteBytes(ws, p, content.value)
        case None => Err(Raised)
        case Some(g) => Ok(g)
  }

  method WriteFile(t: Policy, ws: Fs, rel: Path, content: Option<Bytes>) returns (r: Result<Fs, ActionError>)
    ensures r == Written(t, ws, rel, content)
  {
    var n := NormalizeRelpath(rel);
    if n.Err? { return Err(Reported(n.error)); }
    var editable := MayEdit(t, n.value);
    if !editable { return Err(Reported(NotEditable)); }
    if content.None? { return Err(Reported(BadContent)); }
    if |content.value| > MAX_WRITE_BYTES { return Err(Reported(TooLarge)); }
    if n.value == [DOT] { return Err(Raised); }
    var g := Write(ws, n.value, content.value);
    if g.None? { return Err(Raised); }
    return Ok(g.value);
  }

  /**
   * When a write is accepted: the path is good, editable and not the workspace itself, the content is a
   * string of at most 256 KiB, and the place is a file or free, below directories or nothing.
   */
  lemma WriteAnswers(t: Policy, ws: Fs, rel: Path, content: Option<Bytes>)
    ensures var r, n := Written(t, ws, rel, content), NormalizeRelpath(rel);
            && (r.Ok? <==> n.Ok? && n.value != Codes(".") && EditablePlain(t, n.value)
                           && content.Some? && |content.value| <= 262144 && Writable(ws, n.value))
            && (r == Err(Reported(TooLarge)) <==>
                  n.Ok? && EditablePlain(t, n.value) && content.Some? && |content.value| > 262144)
            && (r == Err(Reported(BadContent)) <==> n.Ok? && EditablePlain(t, n.value) && content.None?)
            && (r == Err(Reported(NotEditable)) <==> n.Ok? && !EditablePlain(t, n.value))
            && (r == Err(Reported(TaskError.BadPath)) <==> n.Err?)
  {
    assert Codes(".") == [DOT];
    if NormalizeRelpath(rel).Ok? && content.Some? { WriteSucceeds(ws, NormalizeRelpath(rel).value, content.value); }
  }

  lemma WriteSucceeds(ws: Fs, p: Path, data: Bytes)
    ensures WriteBytes(ws, p, data).Some? <==> Writable(ws, p)
  {
    forall a ensures a in Ancestors({p}) <==> IsAncestor(a, p) { AncestorsOfOne(p, a); }
    if MkdirParents(ws, p).Some? { MadeAt(ws, p, p); }
  }

  /** An accepted write changes one editable file and makes directories above it; nothing else moves. */
  lemma OnlyEditableChanges(t: Policy, ws: Fs, rel: Path, content: Option<Bytes>, q: Path)
    requires Written(t, ws, rel, content).Ok?
    ensures var g := Written(t, ws, rel, content).value;
            var p := NormalizeRelpath(rel).value;
            && EditablePlain(t, p) && p in g && g[p].FsFile? && content == Some(g[p].data)
                && |g[p].data| <= MAX_WRITE_BYTES
            && (q in ws && q != p ==> q in g && g[q] == ws[q])
            && (q in g && q !in ws && q != p ==> IsAncestor(q, p) && g[q].FsDir?)
  {
    MadeAt(ws, NormalizeRelpath(rel).value, q);
  }

  /** Some directory above the path is a test cache. */
  predicate InTestCache(p: Path) {
    exists i :: 0 <= i < |Split(p)| - 1 && Split(p)[i] == PYTEST_CACHE
  }

  /**
   * Whether an accepted write counts: grading takes the file unless it is a compiled module or lies
   * below a test cache. Such a file is accepted from the agent and then ignored. A bytecode cache is
   * refused from the start.
   */
  lemma WriteCountsExactly(t: Policy, ws: Fs, rel: Path, content: Option<Bytes>)
    requires Written(t, ws, rel, content).Ok?
    ensures var p := NormalizeRelpath(rel).value;
            && (Allowed(t, Written(t, ws, rel, content).value, p)
                <==> !EndsWith(BaseName(p), DOT_PYC) && !InTestCache(p))
            && (Listed(p) <==> !EndsWith(BaseName(p), DOT_PYC) && !InTestCache(p))
            && PYCACHE !in Split(p)
  {
    OnlyEditableChanges(t, ws, rel, content, rel);
    var p := NormalizeRelpath(rel).value;
    forall i | 0 <= i < |Split(p)| ensures Split(p)[i] != PYCACHE { assert Split(p)[i] in Split(p); }
  }

  const STAR := 42
  const ANY_IN_A: Path := [97, SLASH, STAR]                         // a/*
  const MODULE_IN_A: Path := [97, SLASH, 120, 46, 112, 121, 99]     // a/x.pyc
  const MODULE_NAME: Path := [120, 46, 112, 121, 99]                // x.pyc
  const STAR_POLICY := Policy({}, [ANY_IN_A], (part, pattern) => pattern == [STAR] || part == pattern)

  lemma SegmentsInA(name: Path)
    requires SLASH !in name
    ensures Split([97, SLASH] + name) == [[97], name]
  {
    SplitConcat([97], name);
    SplitNoSlash(name);
    assert [97] + [SLASH] + name == [97, SLASH] + name;
  }

  lemma ModuleIsEditable()
    ensures Split(MODULE_IN_A) == [[97], MODULE_NAME] && EditablePlain(STAR_POLICY, MODULE_IN_A)
    ensures NormalizeRelpath(MODULE_IN_A) == Ok(MODULE_IN_A)
  {
    SegmentsInA(MODULE_NAME);
    SegmentsInA([STAR]);
    assert MODULE_IN_A == [97, SLASH] + MODULE_NAME && ANY_IN_A == [97, SLASH] + [STAR];
    PlainNormal(MODULE_IN_A);
    assert MatchesSegments(STAR_POLICY.glob, Split(MODULE_IN_A), Split(STAR_POLICY.patterns[0]));
  }

  /** Into an empty workspace anything can be written. */
  lemma WriteIntoEmpty(p: Path, data: Bytes)
    ensures WriteBytes(map[], p, data).Some?
  {
    assert MkdirParents(map[], p).Some?;
    MadeAt(map[], p, p);
  }

  /** With a/'*' editable, the agent may write a/x.pyc; grading does not see it. */
  lemma AcceptedAndIgnored()
    ensures Written(STAR_POLICY, map[], MODULE_IN_A, Some([])).Ok?
    ensures !Allowed(STAR_POLICY, Written(STAR_POLICY, map[], MODULE_IN_A, Some([])).value, MODULE_IN_A)
  {
    ModuleIsEditable();
    WriteIntoEmpty(MODULE_IN_A, []);
    WriteCountsExactly(STAR_POLICY, map[], MODULE_IN_A, Some([]));
    assert BaseName(MODULE_IN_A) == MODULE_NAME && MODULE_NAME[1..] == DOT_PYC;
  }

  /** And a write that counts changes the graded tree exactly when it differs from the base. */
  lemma WriteIsGraded(t: Policy, base: Fs, ws: Fs, rel: Path, content: Option<Bytes>)
    requires Written(t, ws, rel, content).Ok? && Listed(NormalizeRelpath(rel).value)
    requires Gradable(t, base, Written(t, ws, rel, content).value)
    ensures var p := NormalizeRelpath(rel).value;
            var graded := GradedTree(t, base, Written(t, ws, rel, content).value);
            && p in graded.tree && graded.tree[p].FsFile? && content == Some(graded.tree[p].data)
            && (p in graded.edited <==> !Same(base, p, content.value))
  {
    var p := NormalizeRelpath(rel).value;
    var g := Written(t, ws, rel, content).value;
    OnlyEditableChanges(t, ws, rel, content, p);
    WriteCountsExactly(t, ws, rel, content);
  }
}
