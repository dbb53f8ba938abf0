/**
 The shared artifact files while any number of deployments prepare and deploy at once, for
 the same device or for different ones. Every file operation is a step of its own.
 */
module ArtifactStore {
  import opened Outcomes
  import opened DeploymentModels
  import opened Artifacts
  import opened Text

  type Files = map<string, Bytes>

  /** One attempt to prepare: what it rendered, and how far its file has come. */
  datatype Writer = Writer(device: string, content: Bytes, temporary: string, phase: WritePhase)

  /** A writer is vouched for once its prepare activity has returned its identity; an abandoned one has failed. */
  datatype WritePhase = Opened(written: nat) | Replaced | Vouched | Abandoned

  /** One attempt to deploy what writer `writer` rendered, and the bytes it read and accepted. */
  datatype Deployer = Deployer(writer: nat, read: Option<Bytes>)

  datatype Sent = Sent(writer: nat, bytes: Bytes)

  datatype State = State(files: Files, writers: seq<Writer>, deployers: seq<Deployer>, sent: seq<Sent>)

  datatype Step =
    | Open(device: string, content: Bytes, temporary: string)
    | Write(writer: nat, count: nat)
    | Replace(writer: nat)
    | Unlink(writer: nat)
    | Verify(writer: nat)
    | StartDeploy(writer: nat)
    | Read(deployer: nat)
    | Send(deployer: nat)
    | Overwrite(device: string, content: Bytes)

  /** Temporary files are told from targets by their suffix. */
  predicate TemporaryName(t: string) {
    |t| > 0 && t[|t| - 1] == 'p'
  }

  /** What the deploy activity requires of the bytes it reads back. */
  predicate Matches(b: Bytes, identity: ArtifactIdentity, hash: Bytes -> string) {
    hash(b) == identity.sha256 && |b| == identity.byteCount && AsciiText(b)
  }

  /** What reading the target of a device yields. */
  function Target(files: Files, device: string): Option<Bytes> {
    if ArtifactPath(device) in files then Some(files[ArtifactPath(device)]) else None
  }

  function WriterIdentity(w: Writer, hash: Bytes -> string): ArtifactIdentity {
    IdentityOf(w.content, w.device, hash)
  }

  predicate InPhase(s: State, w: nat, p: WritePhase) {
    w < |s.writers| && s.writers[w].phase == p
  }

  predicate IsOpen(s: State, w: nat) {
    w < |s.writers| && s.writers[w].phase.Opened?
  }

  predicate Enabled(s: State, step: Step) {
    match step
    case Open(_, _, temporary) => temporary !in s.files && TemporaryName(temporary)
    case Write(w, count) => IsOpen(s, w) && s.writers[w].phase.written + count <= |s.writers[w].content|
    case Replace(w) => IsOpen(s, w) && s.writers[w].phase.written == |s.writers[w].content|
        && s.writers[w].temporary in s.files
    case Unlink(w) => IsOpen(s, w)
    case Verify(w) => InPhase(s, w, Replaced)
    case StartDeploy(w) => InPhase(s, w, Vouched)
    case Read(d) => d < |s.deployers| && s.deployers[d].read.None? && s.deployers[d].writer < |s.writers|
    case Send(d) => d < |s.deployers| && s.deployers[d].read.Some?
    case Overwrite(_, _) => true
  }

  function SetPhase(s: State, w: nat, p: WritePhase): State
    requires w < |s.writers|
  {
    s.(writers := s.writers[w := s.writers[w].(phase := p)])
  }

  /** One step; a step that is not enabled changes nothing. */
  function Next(hash: Bytes -> string, s: State, step: Step): State {
    if !Enabled(s, step) then s
    else
      match step
      case Open(device, content, temporary) =>
        s.(files := s.files[temporary := ""], writers := s.writers + [Writer(device, content, temporary, Opened(0))])
      case Write(w, count) =>
        var writer := s.writers[w];
        var written := writer.phase.written + count;
        SetPhase(s.(files := s.files[writer.temporary := writer.content[..written]]), w, Opened(written))
      case Replace(w) =>
        var writer := s.writers[w];
        var files := (s.files - {writer.temporary})[ArtifactPath(writer.device) := s.files[writer.temporary]];
        SetPhase(s.(files := files), w, Replaced)
      case Unlink(w) => SetPhase(s.(files := s.files - {s.writers[w].temporary}), w, Abandoned)
      case Verify(w) =>
        var writer := s.writers[w];
        var verdict := VerifyShape(
          ArtifactPath(writer.device), Target(s.files, writer.device), writer.device, WriterIdentity(writer, hash),
              hash);
        SetPhase(s, w, if verdict.Ok? then Vouched else Abandoned)
      case StartDeploy(w) => s.(deployers := s.deployers + [Deployer(w, None)])
      case Read(d) =>
        var writer := s.writers[s.deployers[d].writer];
        var content := Target(s.files, writer.device);
        if content.Some? && Matches(content.value, WriterIdentity(writer, hash), hash)
        then s.(deployers := s.deployers[d := s.deployers[d].(read := content)])
        else s
      case Send(d) => s.(sent := s.sent + [Sent(s.deployers[d].writer, s.deployers[d].read.value)])
      case Overwrite(device, content) => s.(files := s.files[ArtifactPath(device) := content])
  }

  function After(hash: Bytes -> string, s: State, run: seq<Step>): State {
    if run == [] then s else Next(hash, After(hash, s, run[..|run| - 1]), run[|run| - 1])
  }

  predicate Initial(s: State) {
    s.writers == [] && s.deployers == [] && s.sent == [] && forall f :: f in s.files ==> !TemporaryName(f)
  }

  ghost predicate CollisionFree(hash: Bytes -> string) {
    forall a, b :: hash(a) == hash(b) ==> a == b
  }

  // ---------------------------------------------------------------- file names

  lemma TargetIsNotTemporary(device: string)
    ensures !TemporaryName(ArtifactPath(device))
  {
    var path := ArtifactPath(device);
    assert path[|path| - 1] == 'g';
  }

  lemma TargetsDiffer(a: string, b: string)
    ensures ArtifactPath(a) == ArtifactPath(b) <==> a == b
  {
    var p, q := ArtifactPath(a), ArtifactPath(b);
    assert p[18..|p| - 4] == a && q[18..|q| - 4] == b;
  }

  // ---------------------------------------------------------------- whose bytes are sent

  /** The content of a writer vouched for has passed the check; what is read or sent is the content of such a writer. */
  ghost predicate OwnBytes(hash: Bytes -> string, s: State) {
    && (forall w :: 0 <= w < |s.writers| && s.writers[w].phase == Vouched ==> Approved(hash, s.writers[w]))
    && (forall d :: 0 <= d < |s.deployers| ==>
          && InPhase(s, s.deployers[d].writer, Vouched)
          && (s.deployers[d].read.Some? ==> s.deployers[d].read.value == s.writers[s.deployers[d].writer].content))
    && (forall k :: 0 <= k < |s.sent| ==>
          InPhase(s, s.sent[k].writer, Vouched) && s.sent[k].bytes == s.writers[s.sent[k].writer].content)
  }

  predicate Approved(hash: Bytes -> string, w: Writer) {
    VerifyShape(ArtifactPath(w.device), Some(w.content), w.device, WriterIdentity(w, hash), hash).Ok?
  }

  /** A writer vouched for stays as it is. */
  lemma VouchedStays(hash: Bytes -> string, s: State, step: Step, w: nat)
    requires InPhase(s, w, Vouched)
    ensures InPhase(Next(hash, s, step), w, Vouched) && Next(hash, s, step).writers[w] == s.writers[w]
  {
    hide VerifyShape, ArtifactPath, Matches;
  }

  lemma VerifiedIsApproved(hash: Bytes -> string, w: Writer, content: Option<Bytes>)
    requires CollisionFree(hash)
    requires VerifyShape(ArtifactPath(w.device), content, w.device, WriterIdentity(w, hash), hash).Ok?
    ensures Approved(hash, w)
  {
    hide SplitLines, HostnameLines, HostnameLine, ArtifactPath;
    assert content.Some? && hash(content.value) == hash(w.content);
  }

  lemma ApprovedKept(hash: Bytes -> string, s: State, step: Step, w: nat)
    requires CollisionFree(hash) && OwnBytes(hash, s) && InPhase(Next(hash, s, step), w, Vouched)
    ensures Approved(hash, Next(hash, s, step).writers[w])
  {
    hide VerifyShape, ArtifactPath, Matches, CollisionFree;
    if step == Verify(w) && Enabled(s, step) {
      VerifiedIsApproved(hash, s.writers[w], Target(s.files, s.writers[w].device));
    } else if InPhase(s, w, Vouched) {
      VouchedStays(hash, s, step, w);
    }
  }

  lemma OwnBytesKept(hash: Bytes -> string, s: State, step: Step)
    requires CollisionFree(hash) && OwnBytes(hash, s)
    ensures OwnBytes(hash, Next(hash, s, step))
  {
    var t := Next(hash, s, step);
    hide VerifyShape, ArtifactPath, CollisionFree, Approved;
    forall w | 0 <= w < |t.writers| && t.writers[w].phase == Vouched ensures Approved(hash, t.writers[w]) {
      ApprovedKept(hash, s, step, w);
    }
    forall d | 0 <= d < |t.deployers|
      ensures InPhase(t, t.deployers[d].writer, Vouched)
      ensures t.deployers[d].read.Some? ==> t.deployers[d].read.value == t.writers[t.deployers[d].writer].content
    {
      DeployerKept(hash, s, step, d);
    }
    forall k | 0 <= k < |t.sent|
      ensures InPhase(t, t.sent[k].writer, Vouched) && t.sent[k].bytes == t.writers[t.sent[k].writer].content
    {
      SentKept(hash, s, step, k);
    }
  }

  lemma DeployerKept(hash: Bytes -> string, s: State, step: Step, d: nat)
    requires CollisionFree(hash) && OwnBytes(hash, s) && d < |Next(hash, s, step).deployers|
    ensures var t := Next(hash, s, step);
            && InPhase(t, t.deployers[d].writer, Vouched)
            && (t.deployers[d].read.Some? ==> t.deployers[d].read.value == t.writers[t.deployers[d].writer].content)
  {
    hide VerifyShape, ArtifactPath, Approved;
    if d < |s.deployers| {
      VouchedStays(hash, s, step, s.deployers[d].writer);
    } else {
      VouchedStays(hash, s, step, step.writer);
    }
  }

  lemma SentKept(hash: Bytes -> string, s: State, step: Step, k: nat)
    requires OwnBytes(hash, s) && k < |Next(hash, s, step).sent|
    ensures var t := Next(hash, s, step);
            InPhase(t, t.sent[k].writer, Vouched) && t.sent[k].bytes == t.writers[t.sent[k].writer].content
  {
    hide VerifyShape, ArtifactPath, Approved, Matches;
    if k < |s.sent| {
      VouchedStays(hash, s, step, s.sent[k].writer);
    } else {
      VouchedStays(hash, s, step, s.deployers[step.deployer].writer);
    }
  }

  /**
   However the deployments interleave, and even if the shared file is overwritten from
   outside, any bytes sent to a device are those its own prepare rendered, and they passed
   the shape check for that device.
   */
  lemma {:induction false} SentIsOwnRendering(hash: Bytes -> string, s: State, run: seq<Step>)
    requires CollisionFree(hash) && Initial(s)
    ensures var t := After(hash, s, run);
            && OwnBytes(hash, t)
            && forall k :: 0 <= k < |t.sent| ==>
                 && t.sent[k].writer < |t.writers| && t.sent[k].bytes == t.writers[t.sent[k].writer].content
                 && Approved(hash, t.writers[t.sent[k].writer])
  {
    if run != [] {
      SentIsOwnRendering(hash, s, run[..|run| - 1]);
      OwnBytesKept(hash, After(hash, s, run[..|run| - 1]), run[|run| - 1]);
      hide Next, Approved, CollisionFree;
    }
  }

  // ---------------------------------------------------------------- what the shared file holds

  /** An open writer's temporary file holds what it has written so far. */
  predicate TemporarySound(s: State, w: nat)
    requires w < |s.writers|
  {
    var writer := s.writers[w];
    writer.phase.Opened? ==>
      && TemporaryName(writer.temporary) && writer.phase.written <= |writer.content|
      && writer.temporary in s.files && s.files[writer.temporary] == writer.content[..writer.phase.written]
  }

  predicate TemporariesSound(s: State) {
    && (forall w :: 0 <= w < |s.writers| ==> TemporarySound(s, w))
    && (forall v, w :: 0 <= v < w < |s.writers| && IsOpen(s, v) && IsOpen(s, w) ==>
       s.writers[v].temporary != s.writers[w].temporary)
  }

  /** The target holds the complete rendering of a writer that has replaced it. */
  predicate HoldsRendering(s: State, device: string) {
    exists w :: 0 <= w < |s.writers| && !s.writers[w].phase.Opened? && s.writers[w].device == device
                && Target(s.files, device) == Some(s.writers[w].content)
  }

  lemma TemporaryKept(hash: Bytes -> string, s: State, step: Step, w: nat)
    requires TemporariesSound(s) && w < |Next(hash, s, step).writers|
    ensures TemporarySound(Next(hash, s, step), w)
  {
    hide VerifyShape, Matches, AsciiText;
    if step.Replace? && Enabled(s, step) {
      TargetIsNotTemporary(s.writers[step.writer].device);
    } else if step.Overwrite? {
      TargetIsNotTemporary(step.device);
    }
    hide ArtifactPath;
    if w < |s.writers| {
      assert TemporarySound(s, w);
    }
  }

  lemma TemporariesKept(hash: Bytes -> string, s: State, step: Step)
    requires TemporariesSound(s)
    ensures TemporariesSound(Next(hash, s, step))
  {
    var t := Next(hash, s, step);
    forall w | 0 <= w < |t.writers| ensures TemporarySound(t, w) {
      TemporaryKept(hash, s, step, w);
    }
    TemporariesStayDistinct(hash, s, step);
  }

  lemma TemporariesStayDistinct(hash: Bytes -> string, s: State, step: Step)
    requires TemporariesSound(s)
    ensures var t := Next(hash, s, step);
            forall v, w :: 0 <= v < w < |t.writers| && IsOpen(t, v) && IsOpen(t, w) ==>
                t.writers[v].temporary != t.writers[w].temporary
  {
    hide VerifyShape, Matches, ArtifactPath;
    var t := Next(hash, s, step);
    forall v, w | 0 <= v < w < |t.writers| && IsOpen(t, v)
        && IsOpen(t, w) ensures t.writers[v].temporary != t.writers[w].temporary {
      assert TemporarySound(s, v) && IsOpen(s, v);
      if w < |s.writers| {
        assert IsOpen(s, w);
      }
    }
  }

  /** A step leaves a target as it was, or puts a complete rendering for its device there. */
  lemma TargetMoves(hash: Bytes -> string, s: State, step: Step, device: string)
    requires TemporariesSound(s) && !step.Overwrite?
    ensures var t := Next(hash, s, step);
            || Target(t.files, device) == Target(s.files, device)
            || (step.Replace? && Enabled(s, step) && s.writers[step.writer].device == device
                && Target(t.files, device) == Some(s.writers[step.writer].content))
  {
    hide VerifyShape, Matches;
    TargetIsNotTemporary(device);
    if step.Replace? && Enabled(s, step) {
      var writer := s.writers[step.writer];
      TargetsDiffer(device, writer.device);
      assert TemporarySound(s, step.writer);
      assert writer.content[..|writer.content|] == writer.content;
    } else if (step.Write? || step.Unlink?) && Enabled(s, step) {
      assert TemporarySound(s, step.writer);
    }
    hide ArtifactPath;
  }

  lemma RenderingStays(hash: Bytes -> string, s: State, step: Step, w: nat)
    requires w < |s.writers| && !s.writers[w].phase.Opened?
    ensures var t := Next(hash, s, step);
            w < |t.writers| && !t.writers[w].phase.Opened? && t.writers[w].device == s.writers[w].device
            && t.writers[w].content == s.writers[w].content
  {
    hide VerifyShape, Matches, ArtifactPath;
  }

  /**
   While only deployments touch the directory, a device's file holds at every moment either
   what it held at first or one complete rendering made for that device.
   */
  lemma {:induction false} TargetIsComplete(hash: Bytes -> string, s: State, run: seq<Step>, device: string)
    requires Initial(s) && forall step :: step in run ==> !step.Overwrite?
    ensures var t := After(hash, s, run);
            && TemporariesSound(t)
            && (Target(t.files, device) == Target(s.files, device) || HoldsRendering(t, device))
  {
    if run != [] {
      var before, step := After(hash, s, run[..|run| - 1]), run[|run| - 1];
      var t := Next(hash, before, step);
      TargetIsComplete(hash, s, run[..|run| - 1], device);
      TemporariesKept(hash, before, step);
      TargetMoves(hash, before, step, device);
      hide TemporariesSound, Target;
      if Target(t.files, device) == Target(before.files, device) {
        if HoldsRendering(before, device) {
          var w :| 0 <= w < |before.writers| && !before.writers[w].phase.Opened? && before.writers[w].device == device
                   && Target(before.files, device) == Some(before.writers[w].content);
          RenderingStays(hash, before, step, w);
        }
      } else {
        ReplacedHolds(hash, before, step, device);
      }
    }
  }

  lemma ReplacedHolds(hash: Bytes -> string, s: State, step: Step, device: string)
    requires step.Replace? && Enabled(s, step) && s.writers[step.writer].device == device
    requires Target(Next(hash, s, step).files, device) == Some(s.writers[step.writer].content)
    ensures HoldsRendering(Next(hash, s, step), device)
  {
    hide Target, ArtifactPath;
    var t := Next(hash, s, step);
    assert t.writers[step.writer].phase == Replaced && t.writers[step.writer].content == s.writers[step.writer].content;
  }

  // ---------------------------------------------------------------- when a deploy may go on

  /**
   A deploy reads its bytes exactly while the shared file holds its own rendering; after
   another run has put a different one there, it refuses.
   */
  lemma ReadSucceedsExactlyWhen(hash: Bytes -> string, s: State, d: nat)
    requires CollisionFree(hash) && OwnBytes(hash, s) && Enabled(s, Read(d))
    ensures var w := s.writers[s.deployers[d].writer];
            Next(hash, s, Read(d)).deployers[d].read.Some? <==> Target(s.files, w.device) == Some(w.content)
  {
    var w := s.writers[s.deployers[d].writer];
    assert Approved(hash, w);
    hide SplitLines, HostnameLines, HostnameLine, ArtifactPath, OwnBytes;
    assert AsciiText(w.content);
  }

  /** A prepare vouches for its file exactly when the shared file still holds its own rendering, in good shape. */
  lemma VouchedExactlyWhen(hash: Bytes -> string, s: State, w: nat)
    requires CollisionFree(hash) && InPhase(s, w, Replaced)
    ensures var writer := s.writers[w];
            Next(hash, s, Verify(w)).writers[w].phase ==
              if Target(s.files, writer.device) == Some(writer.content) && Approved(hash, writer)
              then Vouched else Abandoned
  {
    var writer, content := s.writers[w], Target(s.files, s.writers[w].device);
    var verdict := VerifyShape(
      ArtifactPath(writer.device), content, writer.device, WriterIdentity(writer, hash), hash);
    if verdict.Ok? {
      VerifiedIsApproved(hash, writer, content);
      VerifiedIsOwn(hash, writer, content);
    }
    hide VerifyShape, ArtifactPath, CollisionFree;
  }

  lemma VerifiedIsOwn(hash: Bytes -> string, w: Writer, content: Option<Bytes>)
    requires CollisionFree(hash)
    requires VerifyShape(ArtifactPath(w.device), content, w.device, WriterIdentity(w, hash), hash).Ok?
    ensures content == Some(w.content)
  {
    hide SplitLines, HostnameLines, HostnameLine, ArtifactPath;
  }

  /** After the shared file has been overwritten with other bytes, a deploy refuses them. */
  lemma OverwrittenIsRefused(hash: Bytes -> string, s: State, d: nat, content: Bytes)
    requires CollisionFree(hash) && OwnBytes(hash, s) && Enabled(s, Read(d))
    requires content != s.writers[s.deployers[d].writer].content
    ensures var t := Next(hash, s, Overwrite(s.writers[s.deployers[d].writer].device, content));
            && Target(t.files, s.writers[s.deployers[d].writer].device) == Some(content)
            && Next(hash, t, Read(d)).deployers[d].read.None?
  {
    var w := s.writers[s.deployers[d].writer];
    var step := Overwrite(w.device, content);
    OverwriteGives(hash, s, w.device, content);
    OwnBytesKept(hash, s, step);
    hide Next, CollisionFree, OwnBytes, Matches, VerifyShape, ArtifactPath;
    ReadSucceedsExactlyWhen(hash, Next(hash, s, step), d);
  }

  lemma OverwriteGives(hash: Bytes -> string, s: State, device: string, content: Bytes)
    ensures var t := Next(hash, s, Overwrite(device, content));
            t.writers == s.writers && t.deployers == s.deployers && Target(t.files, device) == Some(content)
  {
    hide VerifyShape, ArtifactPath, Matches;
  }

  lemma {:induction false} AfterConcat(hash: Bytes -> string, s: State, a: seq<Step>, b: seq<Step>)
    ensures After(hash, s, a + b) == After(hash, After(hash, s, a), b)
  {
    if b == [] {
      assert a + b == a;
    } else {
      assert (a + b)[..|a + b| - 1] == a + b[..|b| - 1];
      AfterConcat(hash, s, a, b[..|b| - 1]);
    }
  }

  lemma AfterOne(hash: Bytes -> string, s: State, a: Step)
    ensures After(hash, s, [a]) == Next(hash, s, a)
  {
    hide Next;
    assert [a][..0] == [];
  }

  lemma AfterTwo(hash: Bytes -> string, s: State, a: Step, b: Step)
    ensures After(hash, s, [a, b]) == Next(hash, Next(hash, s, a), b)
  {
    hide Next;
    AfterOne(hash, s, a);
    AfterOne(hash, Next(hash, s, a), b);
    AfterConcat(hash, s, [a], [b]);
    assert [a] + [b] == [a, b];
  }

  /** The steps of one prepare, start to end, by the first writer. */
  function PrepareSteps(device: string, content: Bytes, temporary: string): seq<Step> {
    [Open(device, content, temporary), Write(0, |content|)] + [Replace(0), Verify(0)]
  }

  /** The steps of one deploy of what it prepared. */
  function DeploySteps(): seq<Step> {
    [StartDeploy(0), Read(0)] + [Send(0)]
  }

  lemma PreparedAlone(hash: Bytes -> string, s: State, device: string, content: Bytes, temporary: string)
    requires Initial(s) && temporary !in s.files && TemporaryName(temporary)
    requires VerifyShape(ArtifactPath(device), Some(content), device, IdentityOf(content, device, hash), hash).Ok?
    ensures var t := After(hash, s, PrepareSteps(device, content, temporary));
            && t.writers == [Writer(device, content, temporary, Vouched)] && t.deployers == [] && t.sent == []
            && Target(t.files, device) == Some(content)
  {
    TargetIsNotTemporary(device);
    hide VerifyShape, ArtifactPath, After;
    var s1 := Next(hash, s, Open(device, content, temporary));
    var s2 := Next(hash, s1, Write(0, |content|));
    assert content[..|content|] == content;
    assert s2.writers == [Writer(device, content, temporary, Opened(|content|))] && s2.files[temporary] == content;
    var s3 := Next(hash, s2, Replace(0));
    assert s3.writers == [Writer(device, content, temporary, Replaced)] && Target(s3.files, device) == Some(content);
    AfterTwo(hash, s, Open(device, content, temporary), Write(0, |content|));
    AfterTwo(hash, s2, Replace(0), Verify(0));
    AfterConcat(hash, s, [Open(device, content, temporary), Write(0, |content|)], [Replace(0), Verify(0)]);
  }

  lemma MatchesItself(content: Bytes, device: string, hash: Bytes -> string)
    requires VerifyShape(ArtifactPath(device), Some(content), device, IdentityOf(content, device, hash), hash).Ok?
    ensures Matches(content, IdentityOf(content, device, hash), hash)
  {
    hide SplitLines, HostnameLines, HostnameLine, ArtifactPath, AsciiText;
  }

  /** Undisturbed, a deployment whose rendering is well shaped sends exactly that rendering. */
  lemma UndisturbedDeploymentSends(hash: Bytes -> string, s: State, device: string, content: Bytes, temporary: string)
    requires Initial(s) && temporary !in s.files && TemporaryName(temporary)
    requires VerifyShape(ArtifactPath(device), Some(content), device, IdentityOf(content, device, hash), hash).Ok?
    ensures After(hash, s, PrepareSteps(device, content, temporary) + DeploySteps()).sent == [Sent(0, content)]
  {
    PreparedAlone(hash, s, device, content, temporary);
    hide VerifyShape, After, Initial, Next, PrepareSteps;
    var prepared := After(hash, s, PrepareSteps(device, content, temporary));
    SendsWhatIsThere(hash, prepared, device, content, temporary);
    AfterTwo(hash, prepared, StartDeploy(0), Read(0));
    AfterConcat(hash, prepared, [StartDeploy(0), Read(0)], [Send(0)]);
    AfterOne(hash, After(hash, prepared, [StartDeploy(0), Read(0)]), Send(0));
    AfterConcat(hash, s, PrepareSteps(device, content, temporary), DeploySteps());
  }

  lemma SendsWhatIsThere(hash: Bytes -> string, s: State, device: string, content: Bytes, temporary: string)
    requires s.writers == [Writer(device, content, temporary, Vouched)] && s.deployers == [] && s.sent == []
    requires Target(s.files, device) == Some(content)
    requires VerifyShape(ArtifactPath(device), Some(content), device, IdentityOf(content, device, hash), hash).Ok?
    ensures Next(hash, Next(hash, Next(hash, s, StartDeploy(0)), Read(0)), Send(0)).sent == [Sent(0, content)]
  {
    MatchesItself(content, device, hash);
    hide VerifyShape, ArtifactPath, Matches;
    var s5 := Next(hash, s, StartDeploy(0));
    assert s5.writers == s.writers && s5.deployers == [Deployer(0, None)] && s5.files == s.files && s5.sent == [];
    var s6 := Next(hash, s5, Read(0));
    assert s6.deployers == [Deployer(0, Some(content))] && s6.sent == [];
  }

  // ---------------------------------------------------------------- the operations on the file system

  datatype WriteFault = NoFault | OpenFails | WriteFails(written: nat) | ReplaceFails

  datatype ReadError = ArtifactMissing | DigestMismatch | CountMismatch | NotAsciiBytes

  /** The steps one writing takes, as writer `w`. */
  function WriteSteps(w: nat, device: string, rendered: Bytes, temporary: string, fault: WriteFault): seq<Step> {
    match fault
    case OpenFails => []
    case WriteFails(n) =>
      [Open(device, rendered, temporary), Write(w, if n <= |rendered| then n else |rendered|)] + [Unlink(w)]
    case ReplaceFails => [Open(device, rendered, temporary), Write(w, |rendered|)] + [Unlink(w)]
    case NoFault => [Open(device, rendered, temporary), Write(w, |rendered|)] + [Replace(w)]
  }

  lemma WrittenSoFar(hash: Bytes -> string, s: State, device: string, rendered: Bytes, temporary: string, n: nat)
    requires temporary !in s.files && TemporaryName(temporary) && n <= |rendered|
    ensures var w, t := |s.writers|, After(hash, s, [Open(device, rendered, temporary), Write(|s.writers|, n)]);
            && t.files == s.files[temporary := rendered[..n]]
            && t.writers == s.writers + [Writer(device, rendered, temporary, Opened(n))]
  {
    AfterTwo(hash, s, Open(device, rendered, temporary), Write(|s.writers|, n));
    OpenGives(hash, s, device, rendered, temporary);
    var begun := Next(hash, s, Open(device, rendered, temporary));
    WriteGives(hash, begun, |s.writers|, n);
    hide VerifyShape, ArtifactPath, Matches, After, TemporaryName, Next;
    assert s.files[temporary := ""][temporary := rendered[..n]] == s.files[temporary := rendered[..n]];
  }

  lemma OpenGives(hash: Bytes -> string, s: State, device: string, rendered: Bytes, temporary: string)
    requires temporary !in s.files && TemporaryName(temporary)
    ensures var t := Next(hash, s, Open(device, rendered, temporary));
            && t.files == s.files[temporary := ""]
            && t.writers == s.writers + [Writer(device, rendered, temporary, Opened(0))]
  {
    hide VerifyShape, ArtifactPath, Matches;
  }

  lemma WriteGives(hash: Bytes -> string, s: State, w: nat, n: nat)
    requires w < |s.writers| && s.writers[w].phase == Opened(0) && n <= |s.writers[w].content|
    ensures Next(hash, s, Write(w, n)) ==
            s.(files := s.files[s.writers[w].temporary := s.writers[w].content[..n]],
               writers := s.writers[w := s.writers[w].(phase := Opened(n))])
  {
    hide VerifyShape, ArtifactPath, Matches;
  }

  /** Left alone, these steps put the rendering in place, or leave the files as they were. */
  lemma WriteStepsGive(
    hash: Bytes -> string, s: State, device: string, rendered: Bytes, temporary: string, fault: WriteFault)
    requires temporary !in s.files && TemporaryName(temporary)
    ensures After(hash, s, WriteSteps(|s.writers|, device, rendered, temporary, fault)).files ==
            if fault == NoFault then s.files[ArtifactPath(device) := rendered] else s.files
  {
    hide VerifyShape, ArtifactPath, Matches, After;
    var w := |s.writers|;
    if fault.OpenFails? {
      NoSteps(hash, s);
    } else {
      var n := if fault.WriteFails? && fault.written <= |rendered| then fault.written else |rendered|;
      var begin := [Open(device, rendered, temporary), Write(w, n)];
      var last := if fault == NoFault then Replace(w) else Unlink(w);
      TargetIsNotTemporary(device);
      WrittenSoFar(hash, s, device, rendered, temporary, n);
      AfterConcat(hash, s, begin, [last]);
      AfterOne(hash, After(hash, s, begin), last);
      assert rendered[..|rendered|] == rendered;
      assert s.files[temporary := rendered[..n]] - {temporary} == s.files;
    }
  }

  lemma NoSteps(hash: Bytes -> string, s: State)
    ensures After(hash, s, []) == s
  {
  }

  /** The directory of artifacts, as one process uses it. */
  class Directory {
    var files: Files

    constructor (files: Files)
      ensures this.files == files
    {
      this.files := files;
    }

    /**
     Writes a rendering to a temporary file and moves it over the target. Whatever fails, the
     target is untouched and the temporary file is gone.
     */
    method WriteArtifact(device: string, rendered: Bytes, temporary: string, hash: Bytes -> string, fault: WriteFault)
      returns (r: Result<ArtifactIdentity, ShapeError>)
      requires temporary !in files && TemporaryName(temporary)
      modifies this
      ensures r.Ok? <==> fault == NoFault
      ensures r.Ok? ==>
          r.value == IdentityOf(rendered, device, hash) && files == old(files)[ArtifactPath(device) := rendered]
      ensures r.Err? ==> r.error == StorageUnavailable && files == old(files)
      ensures forall s: State :: s.files == old(files) ==>
                After(hash, s, WriteSteps(|s.writers|, device, rendered, temporary, fault)).files == files
    {
      forall s: State | s.files == files
        ensures After(hash, s, WriteSteps(|s.writers|, device, rendered, temporary, fault)).files ==
                if fault == NoFault then s.files[ArtifactPath(device) := rendered] else s.files
      {
        WriteStepsGive(hash, s, device, rendered, temporary, fault);
      }
      hide After, WriteSteps;
      if fault.OpenFails? {
        return Err(StorageUnavailable);
      }
      TargetIsNotTemporary(device);
      hide ArtifactPath;
      files := files[temporary := ""];
      if fault.WriteFails? {
        files := files[temporary := if fault.written <= |rendered| then rendered[..fault.written] else rendered];
        files := files - {temporary};
        assert files == old(files);
        return Err(StorageUnavailable);
      }
      files := files[temporary := rendered];
      if fault.ReplaceFails? {
        files := files - {temporary};
        assert files == old(files);
        return Err(StorageUnavailable);
      }
      files := (files - {temporary})[ArtifactPath(device) := files[temporary]];
      assert files == old(files)[ArtifactPath(device) := rendered];
      return Ok(IdentityOf(rendered, device, hash));
    }

    /** Reads an artifact back for deployment, refusing anything but the bytes of its identity. */
    method ReadArtifact(identity: ArtifactIdentity, hash: Bytes -> string) returns (r: Result<Bytes, ReadError>)
      ensures r.Ok? <==> identity.path in files && Matches(files[identity.path], identity, hash)
      ensures r.Ok? ==> identity.path in files && r.value == files[identity.path]
      ensures r.Err? ==>
                r.error == if identity.path !in files then ArtifactMissing
                           else if hash(files[identity.path]) != identity.sha256 then DigestMismatch
                           else if |files[identity.path]| != identity.byteCount then CountMismatch
                           else NotAsciiBytes
      ensures forall s: State, d: nat ::
                s.files == files && Enabled(s, Read(d))
                && WriterIdentity(s.writers[s.deployers[d].writer], hash) == identity ==>
                  Next(hash, s, Read(d)).deployers[d].read == if r.Ok? then Some(r.value) else None
    {
      hide ArtifactPath, AsciiText;
      if identity.path !in files {
        return Err(ArtifactMissing);
      }
      var bytes := files[identity.path];
      if hash(bytes) != identity.sha256 {
        return Err(DigestMismatch);
      }
      if |bytes| != identity.byteCount {
        return Err(CountMismatch);
      }
      if !AsciiText(bytes) {
        return Err(NotAsciiBytes);
      }
      return Ok(bytes);
    }
  }
}
