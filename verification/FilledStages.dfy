/** What filling in a failure makes of a list of stages, exactly, and how names become stages. */
module FilledStages {
  import opened Outcomes
  import opened DeploymentModels
  import opened Stages
  import opened StageFacts
  import opened Plans

  // ---------------------------------------------------------------- names

  /** Letters, digits, underscore, dot and hyphen stay; anything else becomes an underscore. */
  lemma {:induction false} CleanedIs(s: string)
    ensures forall k :: 0 <= k < |s| ==>
              Cleaned(s)[k] ==
                if 'a' <= s[k] <= 'z' || 'A' <= s[k] <= 'Z' || '0' <= s[k] <= '9' || s[k] in {'_', '.', '-'}
                then s[k] else '_'
  {
    if s != "" {
      CleanedIs(s[1..]);
      var first := [if NameChar(s[0]) then s[0] else '_'];
      assert Cleaned(s) == first + Cleaned(s[1..]);
      forall k | 0 <= k < |s|
        ensures Cleaned(s)[k] ==
                  if 'a' <= s[k] <= 'z' || 'A' <= s[k] <= 'Z' || '0' <= s[k] <= '9' || s[k] in {'_', '.', '-'}
                  then s[k] else '_'
      {
        if k > 0 {
          assert Cleaned(s)[k] == Cleaned(s[1..])[k - 1] && s[1..][k - 1] == s[k];
        }
      }
    }
  }

  /** The names shown for unknown activities: cleaned, at most 96 characters, never empty. */
  lemma SafeNameIs(s: string)
    ensures s == "" ==> SafeActivityName(s) == "unknown"
    ensures 1 <= |s| <= 96 ==> SafeActivityName(s) == Cleaned(s)
    ensures |s| > 96 ==> SafeActivityName(s) == Cleaned(s)[..96]
  {
    assert |Cleaned(s)| == |s|;
  }

  /** The five activities that have a stage, and no other. */
  lemma KnownExactlyWhen(name: string)
    ensures KnownKey(name) == Some(PrepareKey) <==> name == "prepare_device_deployment"
    ensures KnownKey(name) == Some(RenderKey) <==> name == "render_device_artifact"
    ensures KnownKey(name) == Some(DeployKey) <==> name == "deploy_device_artifact"
    ensures KnownKey(name) == Some(ValidateKey) <==> name == "validate_device_state"
    ensures KnownKey(name) == Some(PublishKey) <==> name == "publish_render_result"
    ensures KnownKey(name).Some? ==>
              KnownKey(name).value in {PrepareKey, RenderKey, DeployKey, ValidateKey, PublishKey}
  {
    NamesDiffer();
  }

  lemma NamesDiffer()
    ensures "prepare_device_deployment" != "render_device_artifact"
    ensures "deploy_device_artifact" !in {"prepare_device_deployment", "render_device_artifact"}
    ensures "validate_device_state" !in {"prepare_device_deployment", "render_device_artifact",
        "deploy_device_artifact"}
    ensures "publish_render_result" !in {"prepare_device_deployment", "render_device_artifact",
        "deploy_device_artifact", "validate_device_state"}
  {
    assert "prepare_device_deployment"[0] == 'p' && "render_device_artifact"[0] == 'r';
    assert "deploy_device_artifact"[0] == 'd' && "validate_device_state"[0] == 'v';
    assert "publish_render_result"[1] == 'u' && "prepare_device_deployment"[1] == 'r';
    assert "publish_render_result"[0] == 'p';
  }

  /** The start of a workflow is the first event that says so. */
  lemma {:induction false} FirstStartIs(events: seq<Event>, i: nat)
    requires i < |events| && events[i].WorkflowStarted? && forall j :: 0 <= j < i ==> !events[j].WorkflowStarted?
    ensures FirstStart(events) == Some(events[i].time)
  {
    if i > 0 {
      assert forall j :: 0 <= j < i - 1 ==> events[1..][j] == events[j + 1];
      FirstStartIs(events[1..], i - 1);
    }
  }

  // ---------------------------------------------------------------- filling in

  /** The stages a failure at this stage keeps from being reached. */
  function Unreached(stage: Stage): seq<ExecutionStage> {
    var deploy := ExecutionStage(1, DeployKey, StageNotReached, None, None, None, None, None, None);
    var validate := ExecutionStage(1, ValidateKey, StageNotReached, None, None, None, None, None, None);
    match stage
    case Prepare => [deploy, validate]
    case Deploy => [validate]
    case Validate => []
  }

  function KeyOfFailure(stage: Stage): Key {
    match stage
    case Prepare => PrepareKey
    case Deploy => DeployKey
    case Validate => ValidateKey
  }

  predicate Lacks(stages: seq<ExecutionStage>, key: Key) {
    forall i :: 0 <= i < |stages| ==> stages[i].key != key
  }

  /** Neither the failing stage nor a later one before publishing is among these. */
  predicate NoneOf(stages: seq<ExecutionStage>, stage: Stage) {
    && Lacks(stages, KeyOfFailure(stage))
    && (stage == Prepare ==> Lacks(stages, DeployKey))
    && Lacks(stages, ValidateKey)
  }

  lemma UnreachedIsMissing(stages: seq<ExecutionStage>, stage: Stage)
    requires stage == Prepare ==> Lacks(stages, DeployKey)
    requires stage != Validate ==> Lacks(stages, ValidateKey)
    ensures Missing(Later(stage), stages) == Unreached(stage)
  {
    hide Lacks;
    MissingTwo(stages);
    if stage != Validate {
      MissingOne(stages, ValidateKey, []);
      assert [ValidateKey] + [] == [ValidateKey];
    }
  }

  lemma MissingTwo(stages: seq<ExecutionStage>)
    ensures Lacks(stages, DeployKey) ==>
              Missing([DeployKey, ValidateKey], stages) ==
              [ExecutionStage(1, DeployKey, StageNotReached, None, None, None, None, None, None)]
              + Missing([ValidateKey], stages)
  {
    if Lacks(stages, DeployKey) {
      MissingOne(stages, DeployKey, [ValidateKey]);
      assert [DeployKey] + [ValidateKey] == [DeployKey, ValidateKey];
    }
  }

  lemma MissingOne(stages: seq<ExecutionStage>, key: Key, rest: seq<Key>)
    requires Lacks(stages, key)
    ensures Missing([key] + rest, stages) ==
            [ExecutionStage(1, key, StageNotReached, None, None, None, None, None, None)] + Missing(rest, stages)
  {
    assert ([key] + rest)[1..] == rest;
  }

  lemma UnmarkedStays(stages: seq<ExecutionStage>, f: FailedResult)
    requires forall i :: 0 <= i < |stages| ==> stages[i].key != StageKey(f.stage) || stages[i].status != StageFailed
    ensures WithCategory(stages, f) == stages
  {
  }

  lemma UnreachedUnmarked(f: FailedResult)
    ensures WithCategory(Unreached(f.stage), f) == Unreached(f.stage)
  {
    UnmarkedStays(Unreached(f.stage), f);
  }

  /**
   A failure whose stage is not among the stages is put second, failed at the reported time and with
   the reported category, and the stages it kept from being reached come after it.
   */
  lemma AbsentIsFilledIn(stages: seq<ExecutionStage>, f: FailedResult)
    requires stages != [] && NoneOf(stages, f.stage)
    ensures FillIn(stages, Some(f)) ==
            stages[..1]
            + [ExecutionStage(1, KeyOfFailure(f.stage), StageFailed, None, None, Some(f.failedAt), None, None,
                   Some(ReportedKind(f.kind)))]
            + Unreached(f.stage) + stages[1..]
  {
    var with := WithFailing(stages, f);
    NoneIsAbsent(stages, f);
    assert with == stages[..1] + [FailedStage(f)] + stages[1..];
    LacksParts(stages, f);
    PresentIsMarked(stages[..1], FailedStage(f), stages[1..], f);
    hide WithMissing, WithCategory, Unreached, FirstWith;
    PresentIsKept(with, f);
  }

  lemma NoneIsAbsent(stages: seq<ExecutionStage>, f: FailedResult)
    requires NoneOf(stages, f.stage)
    ensures !HasKey(stages, StageKey(f.stage)) && StageKey(f.stage) == KeyOfFailure(f.stage)
  {
  }

  lemma LacksParts(stages: seq<ExecutionStage>, f: FailedResult)
    requires stages != [] && NoneOf(stages, f.stage)
    ensures NoneOf(stages[..1], f.stage) && NoneOf(stages[1..], f.stage)
  {
  }

  lemma PresentIsKept(stages: seq<ExecutionStage>, f: FailedResult)
    requires stages != [] && HasKey(stages, StageKey(f.stage))
    ensures FillIn(stages, Some(f)) == WithCategory(WithMissing(stages, f), f)
  {
  }

  lemma FirstAt(before: seq<ExecutionStage>, stage: ExecutionStage, after: seq<ExecutionStage>)
    requires Lacks(before, stage.key)
    ensures FirstWith(before + [stage] + after, stage.key) == |before|
  {
    var all := before + [stage] + after;
    assert all[|before|] == stage && forall i :: 0 <= i < |before| ==> all[i] == before[i];
  }

  lemma LacksAll(before: seq<ExecutionStage>, stage: ExecutionStage, after: seq<ExecutionStage>, key: Key)
    requires Lacks(before, key) && stage.key != key && Lacks(after, key)
    ensures Lacks(before + [stage] + after, key)
  {
  }

  lemma MarkParts(
    a: seq<ExecutionStage>, stage: ExecutionStage, b: seq<ExecutionStage>, c: seq<ExecutionStage>, f: FailedResult)
    ensures WithCategory(a + [stage] + b + c, f) ==
            WithCategory(a, f) + [Marked(stage, f)] + WithCategory(b, f) + WithCategory(c, f)
  {
  }

  lemma NoneMarked(stages: seq<ExecutionStage>, f: FailedResult)
    requires NoneOf(stages, f.stage)
    ensures WithCategory(stages, f) == stages
  {
    UnmarkedStays(stages, f);
  }

  /** A failing stage that is there stays where it is, with the category reported if it failed. */
  lemma PresentIsMarked(before: seq<ExecutionStage>, stage: ExecutionStage, after: seq<ExecutionStage>, f: FailedResult)
    requires stage.key == KeyOfFailure(f.stage) && NoneOf(before, f.stage) && NoneOf(after, f.stage)
    ensures FillIn(before + [stage] + after, Some(f)) ==
            before
            + [if stage.status == StageFailed then stage.(category := Some(ReportedKind(f.kind))) else stage]
            + Unreached(f.stage) + after
  {
    var stages := before + [stage] + after;
    assert StageKey(f.stage) == KeyOfFailure(f.stage);
    assert HasKey(stages, stage.key) by { FirstAt(before, stage, after); }
    WithMissingIs(before, stage, after, f);
    NoneMarked(before, f);
    NoneMarked(after, f);
    UnreachedUnmarked(f);
    hide HasKey, WithMissing, WithCategory, NoneOf, Unreached;
    PresentIsKept(stages, f);
    MarkParts(before, stage, Unreached(f.stage), after, f);
  }

  lemma WithMissingIs(before: seq<ExecutionStage>, stage: ExecutionStage, after: seq<ExecutionStage>, f: FailedResult)
    requires stage.key == StageKey(f.stage) && NoneOf(before, f.stage) && NoneOf(after, f.stage)
    ensures var stages := before + [stage] + after;
            HasKey(stages, stage.key)
            && WithMissing(stages, f) == before + [stage] + Unreached(f.stage) + after
  {
    var stages := before + [stage] + after;
    FirstAt(before, stage, after);
    if f.stage == Prepare {
      LacksAll(before, stage, after, DeployKey);
    }
    if f.stage != Validate {
      LacksAll(before, stage, after, ValidateKey);
    }
    UnreachedIsMissing(stages, f.stage);
    hide Missing, Later, NoneOf, Unreached, FirstWith, Lacks;
    assert stages[..|before| + 1] == before + [stage] && stages[|before| + 1..] == after;
  }
}
