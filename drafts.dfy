/**
 * `CreateDraftIssue`: discover the fields, resolve the four roles, create
 * the draft item, then run the best-effort update loop over the four
 * roles. Every remote call's outcome is an input, and the calls issued are
 * returned as a trace.
 */
module Drafts {
  import opened Wrappers
  import opened Discovery
  import opened Resolver

  /** The receiver: the project board and whether a GraphQL client is present. */
  datatype ProjectManager = ProjectManager(projectID: ID, hasClient: bool)

  /** Errors `CreateDraftIssue` returns, with the step that failed. */
  datatype DraftError =
    | ClientNil                      // "github GraphQL client is nil"
    | FieldsFailed(inner: Error)     // "failed to get project fields: ..."
    | CreateFailed(cause: string)    // "failed to create draft issue: ..."

  /**
   * A remote call as it is issued. An update carries the field ID as the
   * source holds it (possibly `nil`) and the option ID as formatted text.
   */
  datatype Call =
    | QueryFields(projectID: ID)
    | AddDraftIssue(projectID: ID, title: string, body: string)
    | UpdateFieldValue(projectID: ID, itemID: ID, fieldID: Option<ID>, optionID: string)

  /** One entry of the `fieldUpdates` table; `None` is a `nil` ID. */
  datatype FieldUpdate = FieldUpdate(fieldID: Option<ID>, optionID: Option<ID>, fieldName: string)

  /** The warning printed when a field update fails. */
  datatype Warning = Warning(fieldName: string, cause: string)

  /** The updates in their fixed order: K8s Release, View, Status, Testgrid Board. */
  function UpdatePlan(t: Targets): (plan: seq<FieldUpdate>)
    ensures |plan| == 4
    ensures forall role :: plan[Position(role)] == FieldUpdate(TargetOf(t, role).fieldID, TargetOf(t, role).valueID, Label(role))
  {
    [FieldUpdate(t.release.fieldID, t.release.valueID, "K8s Release"),
     FieldUpdate(t.view.fieldID, t.view.valueID, "View"),
     FieldUpdate(t.status.fieldID, t.status.valueID, "Status"),
     FieldUpdate(t.board.fieldID, t.board.valueID, "Testgrid Board")]
  }

  /** The place of a role in the update table. */
  function Position(role: Role): nat {
    match role
    case Release => 0
    case View => 1
    case Status => 2
    case Board => 3
  }

  /** The field name a role's warning reports. */
  function Label(role: Role): string {
    match role
    case Release => "K8s Release"
    case View => "View"
    case Status => "Status"
    case Board => "Testgrid Board"
  }

  /** `fmt.Sprintf("%s", id)`: the identifier itself, and Go's bad-operand text for `nil`. */
  function FormatID(id: Option<ID>): string {
    match id
    case Some(s) => s
    case None => "%!s(<nil>)"
  }

  /** An ID resolved to a non-empty identifier. */
  predicate IsSet(id: Option<ID>) {
    id.Some? && id.value != ""
  }

  /**
   * Which test decides that an update is sent. `AsWritten` is the source's
   * comparison of each empty-interface ID with "", which a `nil` ID passes;
   * `Resolved` is the evidently intended test: both IDs resolved.
   */
  datatype Guard = AsWritten | Resolved

  predicate Sends(guard: Guard, u: FieldUpdate) {
    match guard
    case AsWritten => u.fieldID != Some("") && u.optionID != Some("")
    case Resolved => IsSet(u.fieldID) && IsSet(u.optionID)
  }

  function CallFor(projectID: ID, itemID: ID, u: FieldUpdate): Call {
    UpdateFieldValue(projectID, itemID, u.fieldID, FormatID(u.optionID))
  }

  /** The update mutations issued for a plan, in plan order. */
  function UpdateCalls(guard: Guard, projectID: ID, itemID: ID, plan: seq<FieldUpdate>): seq<Call> {
    if |plan| == 0 then []
    else
      var n := |plan| - 1;
      UpdateCalls(guard, projectID, itemID, plan[..n])
        + if Sends(guard, plan[n]) then [CallFor(projectID, itemID, plan[n])] else []
  }

  /** One warning per issued update that failed, in plan order. */
  function Warnings(guard: Guard, plan: seq<FieldUpdate>, outcomes: seq<Outcome<string>>): seq<Warning>
    requires |outcomes| == |plan|
  {
    if |plan| == 0 then []
    else
      var n := |plan| - 1;
      Warnings(guard, plan[..n], outcomes[..n])
        + if Sends(guard, plan[n]) && outcomes[n].Fail? then [Warning(plan[n].fieldName, outcomes[n].error)] else []
  }

  function SentCount(guard: Guard, plan: seq<FieldUpdate>): nat {
    if |plan| == 0 then 0
    else SentCount(guard, plan[..|plan| - 1]) + if Sends(guard, plan[|plan| - 1]) then 1 else 0
  }

  /**
   * The two guards differ exactly on the entries with a `nil` ID and no ""
   * ID: the source sends those, the intended test does not. Everything the
   * intended test sends, the source sends too.
   */
  lemma GuardsDiffer(u: FieldUpdate)
    ensures Sends(Resolved, u) ==> Sends(AsWritten, u)
    ensures Sends(AsWritten, u) && !Sends(Resolved, u) <==>
      (u.fieldID.None? || u.optionID.None?) && u.fieldID != Some("") && u.optionID != Some("")
  {
  }

  /**
   * Exactly the entries the guard passes are issued, each once and in plan
   * order: the entry at `i` becomes the call at position "number of passing
   * entries before `i`", and every call comes from a passing entry.
   */
  lemma {:induction false} UpdateCallsSpec(guard: Guard, projectID: ID, itemID: ID, plan: seq<FieldUpdate>)
    ensures |UpdateCalls(guard, projectID, itemID, plan)| == SentCount(guard, plan) <= |plan|
    ensures forall i :: 0 <= i < |plan| && Sends(guard, plan[i]) ==>
      SentCount(guard, plan[..i]) < |UpdateCalls(guard, projectID, itemID, plan)|
      && UpdateCalls(guard, projectID, itemID, plan)[SentCount(guard, plan[..i])] == CallFor(projectID, itemID, plan[i])
    ensures forall c :: c in UpdateCalls(guard, projectID, itemID, plan) ==>
      exists i :: 0 <= i < |plan| && Sends(guard, plan[i]) && c == CallFor(projectID, itemID, plan[i])
  {
    if |plan| > 0 {
      var n := |plan| - 1;
      var init := plan[..n];
      UpdateCallsSpec(guard, projectID, itemID, init);
      var calls := UpdateCalls(guard, projectID, itemID, plan);
      assert calls[..|UpdateCalls(guard, projectID, itemID, init)|] == UpdateCalls(guard, projectID, itemID, init);
      forall i | 0 <= i < |plan| && Sends(guard, plan[i])
        ensures SentCount(guard, plan[..i]) < |calls| && calls[SentCount(guard, plan[..i])] == CallFor(projectID, itemID, plan[i])
      {
        if i < n {
          assert init[..i] == plan[..i];
          assert init[i] == plan[i];
        } else {
          assert plan[..n] == init;
        }
      }
      forall c | c in calls
        ensures exists i :: 0 <= i < |plan| && Sends(guard, plan[i]) && c == CallFor(projectID, itemID, plan[i])
      {
        if c in UpdateCalls(guard, projectID, itemID, init) {
          var i :| 0 <= i < |init| && Sends(guard, init[i]) && c == CallFor(projectID, itemID, init[i]);
          assert init[i] == plan[i];
        }
      }
    }
  }

  /** The number of entries the guard passes and whose update call failed. */
  function FailedCount(guard: Guard, plan: seq<FieldUpdate>, outcomes: seq<Outcome<string>>): nat
    requires |outcomes| == |plan|
  {
    if |plan| == 0 then 0
    else
      var n := |plan| - 1;
      FailedCount(guard, plan[..n], outcomes[..n]) + if Sends(guard, plan[n]) && outcomes[n].Fail? then 1 else 0
  }

  /**
   * Exactly the issued updates whose call failed are reported, each once
   * and in plan order, with that entry's field name and the call's error:
   * the entry at `i` gives the warning at position "number of sent, failed
   * entries before `i`", and every warning comes from such an entry.
   */
  lemma {:induction false} WarningsSpec(guard: Guard, plan: seq<FieldUpdate>, outcomes: seq<Outcome<string>>)
    requires |outcomes| == |plan|
    ensures |Warnings(guard, plan, outcomes)| == FailedCount(guard, plan, outcomes) <= SentCount(guard, plan)
    ensures forall i :: 0 <= i < |plan| && Sends(guard, plan[i]) && outcomes[i].Fail? ==>
      FailedCount(guard, plan[..i], outcomes[..i]) < |Warnings(guard, plan, outcomes)|
      && Warnings(guard, plan, outcomes)[FailedCount(guard, plan[..i], outcomes[..i])]
         == Warning(plan[i].fieldName, outcomes[i].error)
    ensures forall w :: w in Warnings(guard, plan, outcomes) ==>
      exists i :: 0 <= i < |plan| && Sends(guard, plan[i]) && outcomes[i].Fail?
        && w == Warning(plan[i].fieldName, outcomes[i].error)
  {
    if |plan| > 0 {
      var n := |plan| - 1;
      WarningsSpec(guard, plan[..n], outcomes[..n]);
      var ws := Warnings(guard, plan, outcomes);
      assert ws[..|Warnings(guard, plan[..n], outcomes[..n])|] == Warnings(guard, plan[..n], outcomes[..n]);
      forall i | 0 <= i < |plan| && Sends(guard, plan[i]) && outcomes[i].Fail?
        ensures FailedCount(guard, plan[..i], outcomes[..i]) < |ws|
          && ws[FailedCount(guard, plan[..i], outcomes[..i])] == Warning(plan[i].fieldName, outcomes[i].error)
      {
        if i < n {
          assert plan[..n][..i] == plan[..i] && outcomes[..n][..i] == outcomes[..i];
          assert plan[..n][i] == plan[i] && outcomes[..n][i] == outcomes[i];
        }
      }
      forall w | w in Warnings(guard, plan, outcomes)
        ensures exists i :: (0 <= i < |plan| && Sends(guard, plan[i]) && outcomes[i].Fail?
          && w == Warning(plan[i].fieldName, outcomes[i].error))
      {
        if w in Warnings(guard, plan[..n], outcomes[..n]) {
          var i :| 0 <= i < n && Sends(guard, plan[..n][i]) && outcomes[..n][i].Fail?
            && w == Warning(plan[..n][i].fieldName, outcomes[..n][i].error);
          assert plan[..n][i] == plan[i] && outcomes[..n][i] == outcomes[i];
        }
      }
    }
  }

  /**
   * Under the intended test, the updates issued for resolved targets are
   * those of the fully resolved roles: every call names a role whose two
   * IDs are set and carries them, and every such role is called.
   */
  lemma ResolvedCallsAreResolvedRoles(projectID: ID, itemID: ID, t: Targets)
    ensures forall c :: c in UpdateCalls(Resolved, projectID, itemID, UpdatePlan(t)) ==>
      exists role :: RoleResolved(t, role) && c == RoleCall(projectID, itemID, t, role)
    ensures forall role :: RoleResolved(t, role) ==>
      RoleCall(projectID, itemID, t, role) in UpdateCalls(Resolved, projectID, itemID, UpdatePlan(t))
  {
    var plan := UpdatePlan(t);
    var roles := [Release, View, Status, Board];
    assert forall i :: 0 <= i < 4 ==> Position(roles[i]) == i;
    UpdateCallsSpec(Resolved, projectID, itemID, plan);
    forall c | c in UpdateCalls(Resolved, projectID, itemID, plan)
      ensures exists role :: RoleResolved(t, role) && c == RoleCall(projectID, itemID, t, role)
    {
      var i :| 0 <= i < 4 && Sends(Resolved, plan[i]) && c == CallFor(projectID, itemID, plan[i]);
      assert plan[Position(roles[i])] == plan[i];
      assert RoleResolved(t, roles[i]);
    }
    forall role | RoleResolved(t, role)
      ensures RoleCall(projectID, itemID, t, role) in UpdateCalls(Resolved, projectID, itemID, plan)
    {
      var i := Position(role);
      assert Sends(Resolved, plan[i]);
    }
  }

  /** Both of a role's IDs are set. */
  predicate RoleResolved(t: Targets, role: Role) {
    IsSet(TargetOf(t, role).fieldID) && IsSet(TargetOf(t, role).valueID)
  }

  /** The update mutation for a resolved role. */
  function RoleCall(projectID: ID, itemID: ID, t: Targets, role: Role): Call
    requires RoleResolved(t, role)
  {
    UpdateFieldValue(projectID, itemID, TargetOf(t, role).fieldID, TargetOf(t, role).valueID.value)
  }

  /**
   * With all four roles resolved, either test issues four updates in the
   * order K8s Release, View, Status, Testgrid Board; a failing Status
   * update yields one warning and leaves the other three attempted.
   */
  lemma AllFourUpdated(guard: Guard, projectID: ID, itemID: ID, t: Targets, cause: string)
    requires IsSet(t.release.fieldID) && IsSet(t.release.valueID) && IsSet(t.view.fieldID) && IsSet(t.view.valueID)
    requires IsSet(t.status.fieldID) && IsSet(t.status.valueID) && IsSet(t.board.fieldID) && IsSet(t.board.valueID)
    ensures UpdateCalls(guard, projectID, itemID, UpdatePlan(t)) ==
      [UpdateFieldValue(projectID, itemID, t.release.fieldID, t.release.valueID.value),
       UpdateFieldValue(projectID, itemID, t.view.fieldID, t.view.valueID.value),
       UpdateFieldValue(projectID, itemID, t.status.fieldID, t.status.valueID.value),
       UpdateFieldValue(projectID, itemID, t.board.fieldID, t.board.valueID.value)]
    ensures Warnings(guard, UpdatePlan(t), [Pass, Pass, Fail(cause), Pass]) == [Warning("Status", cause)]
  {
    var plan := UpdatePlan(t);
    var outcomes: seq<Outcome<string>> := [Pass, Pass, Fail(cause), Pass];
    assert forall i :: 0 <= i < 4 ==> Sends(guard, plan[i]);
    PlanPrefixes(plan, outcomes);
    assert UpdateCalls(guard, projectID, itemID, plan[..1]) == [CallFor(projectID, itemID, plan[0])];
    assert UpdateCalls(guard, projectID, itemID, plan[..2]) == [CallFor(projectID, itemID, plan[0]), CallFor(projectID, itemID, plan[1])];
    assert UpdateCalls(guard, projectID, itemID, plan[..3])
      == [CallFor(projectID, itemID, plan[0]), CallFor(projectID, itemID, plan[1]), CallFor(projectID, itemID, plan[2])];
    assert Warnings(guard, plan[..1], outcomes[..1]) == [];
    assert Warnings(guard, plan[..2], outcomes[..2]) == [];
    assert Warnings(guard, plan[..3], outcomes[..3]) == [Warning("Status", cause)];
  }

  /** The targets of a board whose only resolved role is the release role. */
  function ReleaseOnly(): Targets {
    Targets(Target(Some("F"), Some("O")), Target(None, None), Target(None, None), Target(None, None))
  }

  /**
   * Only the release role resolved: the source still sends the three other
   * updates, each with a `nil` field ID and the option text of `nil`, and
   * a failing one prints a warning.
   */
  lemma UnresolvedRolesStillSent(projectID: ID, itemID: ID, cause: string)
    ensures UpdateCalls(AsWritten, projectID, itemID, UpdatePlan(ReleaseOnly())) ==
      [UpdateFieldValue(projectID, itemID, Some("F"), "O"),
       UpdateFieldValue(projectID, itemID, None, "%!s(<nil>)"),
       UpdateFieldValue(projectID, itemID, None, "%!s(<nil>)"),
       UpdateFieldValue(projectID, itemID, None, "%!s(<nil>)")]
    ensures Warnings(AsWritten, UpdatePlan(ReleaseOnly()), [Pass, Fail(cause), Pass, Pass]) == [Warning("View", cause)]
  {
    var plan := UpdatePlan(ReleaseOnly());
    var outcomes: seq<Outcome<string>> := [Pass, Fail(cause), Pass, Pass];
    assert forall i :: 0 <= i < 4 ==> Sends(AsWritten, plan[i]);
    PlanPrefixes(plan, outcomes);
    assert UpdateCalls(AsWritten, projectID, itemID, plan[..1]) == [CallFor(projectID, itemID, plan[0])];
    assert UpdateCalls(AsWritten, projectID, itemID, plan[..2]) == [CallFor(projectID, itemID, plan[0]), CallFor(projectID, itemID, plan[1])];
    assert UpdateCalls(AsWritten, projectID, itemID, plan[..3])
      == [CallFor(projectID, itemID, plan[0]), CallFor(projectID, itemID, plan[1]), CallFor(projectID, itemID, plan[2])];
    assert Warnings(AsWritten, plan[..1], outcomes[..1]) == [];
    assert Warnings(AsWritten, plan[..2], outcomes[..2]) == [Warning("View", cause)];
    assert Warnings(AsWritten, plan[..3], outcomes[..3]) == [Warning("View", cause)];
  }

  /** The same board under the intended test: one update, and no warning from the unsent View update. */
  lemma ResolvedSkipsUnresolved(projectID: ID, itemID: ID, cause: string)
    ensures UpdateCalls(Resolved, projectID, itemID, UpdatePlan(ReleaseOnly())) == [UpdateFieldValue(projectID, itemID, Some("F"), "O")]
    ensures Warnings(Resolved, UpdatePlan(ReleaseOnly()), [Pass, Fail(cause), Pass, Pass]) == []
  {
    var plan := UpdatePlan(ReleaseOnly());
    var outcomes: seq<Outcome<string>> := [Pass, Fail(cause), Pass, Pass];
    assert Sends(Resolved, plan[0]) && forall i :: 1 <= i < 4 ==> !Sends(Resolved, plan[i]);
    PlanPrefixes(plan, outcomes);
    assert UpdateCalls(Resolved, projectID, itemID, plan[..1]) == [CallFor(projectID, itemID, plan[0])];
    assert UpdateCalls(Resolved, projectID, itemID, plan[..2]) == [CallFor(projectID, itemID, plan[0])];
    assert UpdateCalls(Resolved, projectID, itemID, plan[..3]) == [CallFor(projectID, itemID, plan[0])];
    assert Warnings(Resolved, plan[..1], outcomes[..1]) == [];
    assert Warnings(Resolved, plan[..2], outcomes[..2]) == [];
    assert Warnings(Resolved, plan[..3], outcomes[..3]) == [];
  }

  /** The prefixes of a four-entry table and its outcomes, one shorter at a time. */
  lemma PlanPrefixes(plan: seq<FieldUpdate>, outcomes: seq<Outcome<string>>)
    requires |plan| == 4 && |outcomes| == 4
    ensures plan[..4] == plan && outcomes[..4] == outcomes
    ensures plan[..4][..3] == plan[..3] && plan[..3][..2] == plan[..2]
    ensures plan[..2][..1] == plan[..1] && plan[..1][..0] == []
    ensures outcomes[..4][..3] == outcomes[..3] && outcomes[..3][..2] == outcomes[..2]
    ensures outcomes[..2][..1] == outcomes[..1] && outcomes[..1][..0] == []
  {
  }

  /**
   * The update loop: attempts every entry of the table, sending each one
   * that passes the source's guard, with its option ID formatted by
   * `fmt.Sprintf("%s", ...)`, and collecting a warning for each that
   * fails; nothing it sees stops it early.
   */
  method ApplyUpdates(projectID: ID, itemID: ID, fieldUpdates: seq<FieldUpdate>, outcomes: seq<Outcome<string>>)
    returns (calls: seq<Call>, warnings: seq<Warning>)
    requires |outcomes| == |fieldUpdates|
    ensures calls == UpdateCalls(AsWritten, projectID, itemID, fieldUpdates)
    ensures warnings == Warnings(AsWritten, fieldUpdates, outcomes)
  {
    calls, warnings := [], [];
    for i := 0 to |fieldUpdates|
      invariant calls == UpdateCalls(AsWritten, projectID, itemID, fieldUpdates[..i])
      invariant warnings == Warnings(AsWritten, fieldUpdates[..i], outcomes[..i])
    {
      assert fieldUpdates[..i + 1][..i] == fieldUpdates[..i];
      assert outcomes[..i + 1][..i] == outcomes[..i];
      var update := fieldUpdates[i];
      if update.fieldID != Some("") && update.optionID != Some("") {
        var optionIDStr := FormatID(update.optionID);
        calls := calls + [UpdateFieldValue(projectID, itemID, update.fieldID, optionIDStr)];
        if outcomes[i].Fail? {
          warnings := warnings + [Warning(update.fieldName, outcomes[i].error)];
        }
      }
    }
    assert fieldUpdates[..|fieldUpdates|] == fieldUpdates && outcomes[..|outcomes|] == outcomes;
  }

  /**
   * `CreateDraftIssue`. A missing client, a failed field discovery or a
   * failed draft creation returns an error before any update is issued.
   * Once the item exists the result is success whatever the updates do:
   * the update loop runs over the four roles in the fixed order and a
   * failure only adds a warning.
   */
  method CreateDraftIssue(g: ProjectManager, title: string, body: string, board: string,
                          discovery: Result<seq<FieldNode>, string>, scans: seq<Scans>,
                          creation: Result<ID, string>, outcomes: seq<Outcome<string>>)
    returns (err: Option<DraftError>, trace: seq<Call>, warnings: seq<Warning>)
    requires discovery.Success? ==> |scans| == |Normalize(discovery.value)|
    requires |outcomes| == 4
    ensures !g.hasClient ==> err == Some(DraftError.ClientNil) && trace == [] && warnings == []
    ensures g.hasClient && discovery.Failure? ==>
      err == Some(FieldsFailed(QueryFailed(discovery.error))) && trace == [QueryFields(g.projectID)] && warnings == []
    ensures g.hasClient && discovery.Success? && creation.Failure? ==>
      err == Some(CreateFailed(creation.error)) && warnings == []
      && trace == [QueryFields(g.projectID), AddDraftIssue(g.projectID, title, body)]
    ensures g.hasClient && discovery.Success? && creation.Success? ==>
      var plan := UpdatePlan(Resolve(Normalize(discovery.value), scans, board));
      err == None && warnings == Warnings(AsWritten, plan, outcomes)
      && trace == [QueryFields(g.projectID), AddDraftIssue(g.projectID, title, body)]
                  + UpdateCalls(AsWritten, g.projectID, creation.value, plan)
  {
    warnings := [];
    if !g.hasClient {
      return Some(DraftError.ClientNil), [], [];
    }

    trace := [QueryFields(g.projectID)];
    var fields := GetProjectFields(g.hasClient, discovery);
    if fields.Failure? {
      return Some(FieldsFailed(fields.error)), trace, [];
    }

    var targets := ResolveTargets(fields.value, scans, board);

    trace := trace + [AddDraftIssue(g.projectID, title, body)];
    if creation.Failure? {
      return Some(CreateFailed(creation.error)), trace, [];
    }
    var itemID := creation.value;

    var updates;
    updates, warnings := ApplyUpdates(g.projectID, itemID, UpdatePlan(targets), outcomes);
    trace := trace + updates;
    err := None;
  }
}
