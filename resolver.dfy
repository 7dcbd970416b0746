/**
 * The role resolver of `CreateDraftIssue`: one pass over the discovered
 * fields that picks, for each of the four roles (K8s Release, View, Status,
 * Testgrid Board), a field ID and an option ID.
 *
 * Go does not fix the order in which a map is ranged over, and the source
 * ranges over a field's options once per role. Each of those passes is
 * given here as an explicit enumeration of the options map (`Scans`), and
 * the properties below hold for every enumeration.
 */
module Resolver {
  import opened Wrappers
  import opened Text
  import opened Versions
  import opened Discovery

  datatype Role = Release | View | Status | Board

  /** The lower-case text a field name must contain to serve a role. */
  function Keyword(role: Role): string {
    match role
    case Release => "k8s release"
    case View => "view"
    case Status => "status"
    case Board => "board"
  }

  /** Field name test: case-insensitive substring match on the role's keyword. */
  predicate NameMatches(role: Role, name: string) {
    Contains(ToLower(name), Keyword(role))
  }

  /**
   * Option name test. A release option qualifies when it carries a version.
   * A board option qualifies when its lower-cased name occurs in the
   * caller's board string, which is itself NOT lower-cased.
   */
  predicate Picks(role: Role, optName: string, board: string) {
    match role
    case Release => ExtractVersion(optName) != ""
    case View => Contains(ToLower(optName), "issue-tracking") || Contains(ToLower(optName), "issue tracking")
    case Status => Contains(ToLower(optName), "drafting") || Contains(ToLower(optName), "draft")
    case Board => Contains(board, ToLower(optName))
  }

  /** One `optName, optID` pair produced by ranging over an options map. */
  type Entry = (string, ID)

  /** `s` ranges over `m`: every entry of `m` exactly once, in some order. */
  ghost predicate IsEnumeration(m: map<string, ID>, s: seq<Entry>) {
    && (forall i :: 0 <= i < |s| ==> s[i].0 in m && m[s[i].0] == s[i].1)
    && (forall i, j :: 0 <= i < j < |s| ==> s[i].0 != s[j].0)
    && (forall name :: name in m ==> exists i :: 0 <= i < |s| && s[i].0 == name)
  }

  /** The four passes the source makes over one field's options. */
  datatype Scans = Scans(release: seq<Entry>, view: seq<Entry>, status: seq<Entry>, board: seq<Entry>)

  function ScanOf(s: Scans, role: Role): seq<Entry> {
    match role
    case Release => s.release
    case View => s.view
    case Status => s.status
    case Board => s.board
  }

  /** Every pass over every field enumerates that field's options. */
  ghost predicate ValidScans(fields: seq<ProjectField>, scans: seq<Scans>) {
    |scans| == |fields|
    && forall i, role :: 0 <= i < |fields| ==> IsEnumeration(fields[i].options, ScanOf(scans[i], role))
  }

  // ---------------------------------------------------------------------
  // Option scans
  // ---------------------------------------------------------------------

  /** The first option in enumeration order that the role picks (the loops that `break`). */
  function FirstPick(role: Role, opts: seq<Entry>, board: string): (r: Option<ID>)
    ensures r.None? <==> forall i :: 0 <= i < |opts| ==> !Picks(role, opts[i].0, board)
    ensures r.Some? ==> exists i :: (0 <= i < |opts| && Picks(role, opts[i].0, board) && opts[i].1 == r.value
      && forall j :: 0 <= j < i ==> !Picks(role, opts[j].0, board))
  {
    if |opts| == 0 then None
    else if Picks(role, opts[0].0, board) then Some(opts[0].1)
    else
      FirstPick(role, opts[1..], board)
  }

  /**
   * The release pass: `(latestVersion, latestVersionID)` after visiting the
   * options in order, replacing the current choice when an option's version
   * is strictly newer.
   */
  function Latest(opts: seq<Entry>): (string, ID) {
    if |opts| == 0 then ("", "")
    else
      var (lv, lid) := Latest(opts[..|opts| - 1]);
      var v := ExtractVersion(opts[|opts| - 1].0);
      if v != "" && (lv == "" || Compare(v, lv) > 0) then (v, opts[|opts| - 1].1) else (lv, lid)
  }

  /**
   * The release pass finds a version exactly when some option has one; it
   * then returns the version and ID of the first option whose version is
   * newest: strictly newer than every earlier one with a version, and not
   * older than any option with a version. Options without a version are
   * never chosen.
   */
  lemma {:induction false} LatestSpec(opts: seq<Entry>)
    ensures Latest(opts).0 == "" <==> forall i :: 0 <= i < |opts| ==> ExtractVersion(opts[i].0) == ""
    ensures Latest(opts).0 == "" ==> Latest(opts).1 == ""
    ensures Latest(opts).0 != "" ==> exists i :: (0 <= i < |opts|
      && ExtractVersion(opts[i].0) == Latest(opts).0 && opts[i].1 == Latest(opts).1
      && forall j :: 0 <= j < i && ExtractVersion(opts[j].0) != "" ==> Compare(Latest(opts).0, ExtractVersion(opts[j].0)) > 0)
    ensures forall j :: 0 <= j < |opts| && ExtractVersion(opts[j].0) != "" ==> Compare(Latest(opts).0, ExtractVersion(opts[j].0)) >= 0
  {
    if |opts| > 0 {
      LatestSpec(opts[..|opts| - 1]);
      LatestStep(opts);
    }
  }

  /** One more option keeps the facts of `LatestSpec` true. */
  lemma LatestStep(opts: seq<Entry>)
    requires |opts| > 0
    requires LatestFacts(opts[..|opts| - 1], Latest(opts[..|opts| - 1]))
    ensures LatestFacts(opts, Latest(opts))
  {
    var n := |opts| - 1;
    var (lv, lid) := Latest(opts[..n]);
    var v := ExtractVersion(opts[n].0);
    if v == "" {
      LatestSkip(opts, lv, lid);
    } else if lv == "" || Compare(v, lv) > 0 {
      LatestReplace(opts, lv, lid);
    } else {
      LatestKeep(opts, lv, lid);
    }
  }

  /** The four facts `LatestSpec` states, for a pair `r` chosen from `opts`. */
  ghost predicate LatestFacts(opts: seq<Entry>, r: (string, ID)) {
    && (r.0 == "" <==> forall i :: 0 <= i < |opts| ==> ExtractVersion(opts[i].0) == "")
    && (r.0 == "" ==> r.1 == "")
    && (r.0 != "" ==> exists i :: (0 <= i < |opts|
      && ExtractVersion(opts[i].0) == r.0 && opts[i].1 == r.1
      && forall j :: 0 <= j < i && ExtractVersion(opts[j].0) != "" ==> Compare(r.0, ExtractVersion(opts[j].0)) > 0))
    && forall j :: 0 <= j < |opts| && ExtractVersion(opts[j].0) != "" ==> Compare(r.0, ExtractVersion(opts[j].0)) >= 0
  }

  /** An option without a version leaves the choice as it was. */
  lemma LatestSkip(opts: seq<Entry>, lv: string, lid: ID)
    requires |opts| > 0 && LatestFacts(opts[..|opts| - 1], (lv, lid))
    requires ExtractVersion(opts[|opts| - 1].0) == ""
    ensures LatestFacts(opts, (lv, lid))
  {
    var n := |opts| - 1;
    var init := opts[..n];
    assert forall i :: 0 <= i < n ==> init[i] == opts[i];
    assert opts == init + [opts[n]];
  }

  /** A strictly newer version (or the first one) takes over the choice. */
  lemma LatestReplace(opts: seq<Entry>, lv: string, lid: ID)
    requires |opts| > 0 && LatestFacts(opts[..|opts| - 1], (lv, lid))
    requires var v := ExtractVersion(opts[|opts| - 1].0); v != "" && (lv == "" || Compare(v, lv) > 0)
    ensures LatestFacts(opts, (ExtractVersion(opts[|opts| - 1].0), opts[|opts| - 1].1))
  {
    var n := |opts| - 1;
    var init := opts[..n];
    var v := ExtractVersion(opts[n].0);
    CompareVersionsOrder(v, v, v);
    forall j | 0 <= j < n && ExtractVersion(opts[j].0) != ""
      ensures Compare(v, ExtractVersion(opts[j].0)) > 0
    {
      var w := ExtractVersion(opts[j].0);
      assert init[j] == opts[j];
      assert lv != "" && Compare(lv, w) >= 0;
      CompareVersionsOrder(v, lv, w);
    }
    assert ExtractVersion(opts[n].0) == v;
  }

  /** A version that is not newer leaves the choice as it was. */
  lemma LatestKeep(opts: seq<Entry>, lv: string, lid: ID)
    requires |opts| > 0 && LatestFacts(opts[..|opts| - 1], (lv, lid))
    requires var v := ExtractVersion(opts[|opts| - 1].0); v != "" && lv != "" && Compare(v, lv) <= 0
    ensures LatestFacts(opts, (lv, lid))
  {
    var n := |opts| - 1;
    var v := ExtractVersion(opts[n].0);
    var init := opts[..n];
    assert forall i :: 0 <= i < n ==> init[i] == opts[i];
    assert opts == init + [opts[n]];
    CompareVersionsOrder(lv, v, v);
  }

  // ---------------------------------------------------------------------
  // The resolver loop as a function
  // ---------------------------------------------------------------------

  /**
   * A role's `(fieldID, valueID)` pair. The source declares both as `g4.ID`,
   * an empty interface, so a never-assigned ID is `nil`: `None` here.
   */
  datatype Target = Target(fieldID: Option<ID>, valueID: Option<ID>)

  datatype Targets = Targets(release: Target, view: Target, status: Target, board: Target)

  /**
   * What one field does to one role's pair: a field whose name matches
   * takes over the field ID; the value ID changes only when the field's pass
   * finds an option, so an earlier field's value ID can survive.
   */
  function RoleStep(role: Role, t: Target, f: ProjectField, s: Scans, board: string): Target {
    if !NameMatches(role, f.name) then t
    else if role == Release then
      var id := Latest(s.release).1;
      Target(Some(f.id), if id != "" then Some(id) else t.valueID)
    else
      match FirstPick(role, ScanOf(s, role), board)
      case Some(id) => Target(Some(f.id), Some(id))
      case None => Target(Some(f.id), t.valueID)
  }

  /** One role's pair after the loop has visited `fields` in order. */
  function ResolveRole(role: Role, fields: seq<ProjectField>, scans: seq<Scans>, board: string): Target
    requires |scans| == |fields|
  {
    if |fields| == 0 then Target(None, None)
    else
      var n := |fields| - 1;
      RoleStep(role, ResolveRole(role, fields[..n], scans[..n], board), fields[n], scans[n], board)
  }

  /** The four roles are resolved independently of each other. */
  function Resolve(fields: seq<ProjectField>, scans: seq<Scans>, board: string): Targets
    requires |scans| == |fields|
  {
    Targets(ResolveRole(Release, fields, scans, board), ResolveRole(View, fields, scans, board),
            ResolveRole(Status, fields, scans, board), ResolveRole(Board, fields, scans, board))
  }

  function TargetOf(t: Targets, role: Role): Target {
    match role
    case Release => t.release
    case View => t.view
    case Status => t.status
    case Board => t.board
  }

  // ---------------------------------------------------------------------
  // Properties of the resolver
  // ---------------------------------------------------------------------

  /** `name` is a release option whose version is not older than any other option's. */
  ghost predicate IsNewest(options: map<string, ID>, name: string) {
    ExtractVersion(name) != ""
    && forall other :: other in options && ExtractVersion(other) != "" ==>
         Compare(ExtractVersion(name), ExtractVersion(other)) >= 0
  }

  /** `id` is the ID of an option of `f` that the role accepts. */
  ghost predicate IsChoice(role: Role, f: ProjectField, board: string, id: ID) {
    exists name :: name in f.options && f.options[name] == id
      && (if role == Release then IsNewest(f.options, name) else Picks(role, name, board))
  }

  /** `f` has an option the role can pick (for the release role, with every option ID set). */
  ghost predicate HasCandidate(role: Role, f: ProjectField, board: string) {
    if role == Release then
      (exists name :: name in f.options && ExtractVersion(name) != "")
      && forall name :: name in f.options ==> f.options[name] != ""
    else exists name :: name in f.options && Picks(role, name, board)
  }

  /** A field's own pass, when it sets the value, sets it to one of the field's acceptable options. */
  lemma StepChoice(role: Role, f: ProjectField, s: Scans, board: string)
    requires IsEnumeration(f.options, ScanOf(s, role))
    ensures role == Release && Latest(s.release).1 != "" ==> IsChoice(role, f, board, Latest(s.release).1)
    ensures role != Release && FirstPick(role, ScanOf(s, role), board).Some? ==>
      IsChoice(role, f, board, FirstPick(role, ScanOf(s, role), board).value)
    ensures HasCandidate(role, f, board) ==>
      if role == Release then Latest(s.release).1 != "" else FirstPick(role, ScanOf(s, role), board).Some?
  {
    if role == Release {
      ReleaseChoice(f, s.release);
    } else {
      PickChoice(role, f, ScanOf(s, role), board);
    }
  }

  lemma ReleaseChoice(f: ProjectField, e: seq<Entry>)
    requires IsEnumeration(f.options, e)
    ensures Latest(e).1 != "" ==> exists name :: name in f.options && f.options[name] == Latest(e).1 && IsNewest(f.options, name)
    ensures ((exists name :: name in f.options && ExtractVersion(name) != "")
      && (forall name :: name in f.options ==> f.options[name] != "")) ==> Latest(e).1 != ""
  {
    LatestSpec(e);
    var (lv, lid) := Latest(e);
    if lv != "" {
      var i :| 0 <= i < |e| && ExtractVersion(e[i].0) == lv && e[i].1 == lid;
      forall other | other in f.options && ExtractVersion(other) != ""
        ensures Compare(lv, ExtractVersion(other)) >= 0
      {
        var j :| 0 <= j < |e| && e[j].0 == other;
      }
      assert IsNewest(f.options, e[i].0);
    }
    if exists name :: name in f.options && ExtractVersion(name) != "" {
      var name :| name in f.options && ExtractVersion(name) != "";
      var j :| 0 <= j < |e| && e[j].0 == name;
    }
  }

  lemma PickChoice(role: Role, f: ProjectField, e: seq<Entry>, board: string)
    requires IsEnumeration(f.options, e)
    ensures FirstPick(role, e, board).Some? ==>
      exists name :: name in f.options && f.options[name] == FirstPick(role, e, board).value && Picks(role, name, board)
    ensures (exists name :: name in f.options && Picks(role, name, board)) ==> FirstPick(role, e, board).Some?
  {
    var r := FirstPick(role, e, board);
    if r.Some? {
      var i :| 0 <= i < |e| && Picks(role, e[i].0, board) && e[i].1 == r.value;
      assert e[i].0 in f.options;
    }
    if exists name :: name in f.options && Picks(role, name, board) {
      var name :| name in f.options && Picks(role, name, board);
      var j :| 0 <= j < |e| && e[j].0 == name;
    }
  }

  /** The loop after `k + 1` fields is one more step after `k` fields. */
  lemma ResolveRoleUnfold(role: Role, fields: seq<ProjectField>, scans: seq<Scans>, board: string, k: nat)
    requires |scans| == |fields| && k < |fields|
    ensures ResolveRole(role, fields[..k + 1], scans[..k + 1], board)
      == RoleStep(role, ResolveRole(role, fields[..k], scans[..k], board), fields[k], scans[k], board)
  {
    assert fields[..k + 1][..k] == fields[..k];
    assert scans[..k + 1][..k] == scans[..k];
  }

  /** What one field does to all four pairs. */
  function StepAll(t: Targets, f: ProjectField, s: Scans, board: string): Targets {
    Targets(RoleStep(Release, t.release, f, s, board), RoleStep(View, t.view, f, s, board),
            RoleStep(Status, t.status, f, s, board), RoleStep(Board, t.board, f, s, board))
  }

  lemma ResolveUnfold(fields: seq<ProjectField>, scans: seq<Scans>, board: string, k: nat)
    requires |scans| == |fields| && k < |fields|
    ensures Resolve(fields[..k + 1], scans[..k + 1], board)
      == StepAll(Resolve(fields[..k], scans[..k], board), fields[k], scans[k], board)
  {
    ResolveRoleUnfold(Release, fields, scans, board, k);
    ResolveRoleUnfold(View, fields, scans, board, k);
    ResolveRoleUnfold(Status, fields, scans, board, k);
    ResolveRoleUnfold(Board, fields, scans, board, k);
  }

  /** Fields after the last one whose name matches change nothing. */
  lemma {:induction false} SuffixIgnored(role: Role, fields: seq<ProjectField>, scans: seq<Scans>, board: string, k: nat)
    requires |scans| == |fields| && k <= |fields|
    requires forall j :: k <= j < |fields| ==> !NameMatches(role, fields[j].name)
    ensures ResolveRole(role, fields, scans, board) == ResolveRole(role, fields[..k], scans[..k], board)
    decreases |fields|
  {
    if |fields| > k {
      var n := |fields| - 1;
      SuffixIgnored(role, fields[..n], scans[..n], board, k);
      assert fields[..n][..k] == fields[..k];
      assert scans[..n][..k] == scans[..k];
    } else {
      assert fields[..k] == fields && scans[..k] == scans;
    }
  }

  /**
   * The field ID of a role is that of the LAST field whose name matches the
   * role, and both IDs stay `nil` when no field matches.
   */
  lemma ResolvedFieldIsLastMatch(role: Role, fields: seq<ProjectField>, scans: seq<Scans>, board: string)
    requires |scans| == |fields|
    ensures (forall k :: 0 <= k < |fields| ==> !NameMatches(role, fields[k].name)) ==>
      ResolveRole(role, fields, scans, board) == Target(None, None)
    ensures forall k :: (0 <= k < |fields| && NameMatches(role, fields[k].name)
      && (forall j :: k < j < |fields| ==> !NameMatches(role, fields[j].name))) ==>
      ResolveRole(role, fields, scans, board).fieldID == Some(fields[k].id)
  {
    if forall k :: 0 <= k < |fields| ==> !NameMatches(role, fields[k].name) {
      SuffixIgnored(role, fields, scans, board, 0);
      assert fields[..0] == [] && scans[..0] == [];
    }
    forall k | 0 <= k < |fields| && NameMatches(role, fields[k].name)
      && (forall j :: k < j < |fields| ==> !NameMatches(role, fields[j].name))
      ensures ResolveRole(role, fields, scans, board).fieldID == Some(fields[k].id)
    {
      LastMatchAt(role, fields, scans, board, k);
    }
  }

  lemma LastMatchAt(role: Role, fields: seq<ProjectField>, scans: seq<Scans>, board: string, k: nat)
    requires |scans| == |fields| && k < |fields| && NameMatches(role, fields[k].name)
    requires forall j :: k < j < |fields| ==> !NameMatches(role, fields[j].name)
    ensures ResolveRole(role, fields, scans, board).fieldID == Some(fields[k].id)
  {
    SuffixIgnored(role, fields, scans, board, k + 1);
    ResolveRoleUnfold(role, fields, scans, board, k);
    RoleStepShape(role, ResolveRole(role, fields[..k], scans[..k], board), fields[k], scans[k], board);
  }

  /** What one step can do: take the field's ID, and keep the value ID or take the pass's result. */
  lemma RoleStepShape(role: Role, t: Target, f: ProjectField, s: Scans, board: string)
    ensures RoleStep(role, t, f, s, board).fieldID == if NameMatches(role, f.name) then Some(f.id) else t.fieldID
    ensures var v := RoleStep(role, t, f, s, board).valueID;
      v == t.valueID || (NameMatches(role, f.name) && v.Some? &&
        if role == Release then v.value == Latest(s.release).1
        else FirstPick(role, ScanOf(s, role), board) == v)
  {
  }

  /**
   * Any value ID a role ends up with is `nil` or an acceptable option of SOME field
   * whose name matches the role: for View, Status and Board one that passes
   * the option test, for the release role one with a newest version. It need
   * not belong to the field whose ID was kept.
   */
  lemma {:induction false} ResolvedValueIsSound(role: Role, fields: seq<ProjectField>, scans: seq<Scans>, board: string)
    requires ValidScans(fields, scans)
    ensures var t := ResolveRole(role, fields, scans, board);
      t.valueID.None? || exists k :: 0 <= k < |fields| && NameMatches(role, fields[k].name) && IsChoice(role, fields[k], board, t.valueID.value)
    decreases |fields|
  {
    if |fields| > 0 {
      var n := |fields| - 1;
      ValidScansPrefix(fields, scans, n);
      ResolvedValueIsSound(role, fields[..n], scans[..n], board);
      SoundStep(role, fields, scans, board);
    }
  }

  /** `id` is `nil` or an acceptable option of a field of `fields` whose name matches the role. */
  ghost predicate SoundValue(role: Role, fields: seq<ProjectField>, board: string, id: Option<ID>) {
    id.None? || exists k :: 0 <= k < |fields| && NameMatches(role, fields[k].name) && IsChoice(role, fields[k], board, id.value)
  }

  lemma ValidScansPrefix(fields: seq<ProjectField>, scans: seq<Scans>, n: nat)
    requires ValidScans(fields, scans) && n <= |fields|
    ensures ValidScans(fields[..n], scans[..n])
  {
    forall i, role | 0 <= i < n ensures IsEnumeration(fields[..n][i].options, ScanOf(scans[..n][i], role)) {
      assert fields[..n][i] == fields[i] && scans[..n][i] == scans[i];
    }
  }

  /** The last field keeps a sound value ID sound. */
  lemma SoundStep(role: Role, fields: seq<ProjectField>, scans: seq<Scans>, board: string)
    requires ValidScans(fields, scans) && |fields| > 0
    requires var n := |fields| - 1;
      SoundValue(role, fields[..n], board, ResolveRole(role, fields[..n], scans[..n], board).valueID)
    ensures SoundValue(role, fields, board, ResolveRole(role, fields, scans, board).valueID)
  {
    var n := |fields| - 1;
    var f, s := fields[n], scans[n];
    var before := ResolveRole(role, fields[..n], scans[..n], board);
    var t := ResolveRole(role, fields, scans, board);
    assert t == RoleStep(role, before, f, s, board);
    RoleStepShape(role, before, f, s, board);
    if t.valueID == before.valueID {
      SoundValueGrow(role, fields, n, board, t.valueID);
    } else {
      assert IsEnumeration(f.options, ScanOf(s, role));
      StepChoice(role, f, s, board);
      assert NameMatches(role, fields[n].name) && IsChoice(role, fields[n], board, t.valueID.value);
    }
  }

  /** Soundness with respect to a prefix of the fields carries over to all of them. */
  lemma SoundValueGrow(role: Role, fields: seq<ProjectField>, n: nat, board: string, id: Option<ID>)
    requires n <= |fields| && SoundValue(role, fields[..n], board, id)
    ensures SoundValue(role, fields, board, id)
  {
    if id.Some? {
      var k :| 0 <= k < n && NameMatches(role, fields[..n][k].name) && IsChoice(role, fields[..n][k], board, id.value);
      assert fields[..n][k] == fields[k];
    }
  }

  /**
   * When the last field whose name matches a role has an option the role can
   * pick, the role's value ID comes from that same field: a stale value can
   * survive only past a field whose pass found nothing.
   */
  lemma ResolvedValueFromLastField(role: Role, fields: seq<ProjectField>, scans: seq<Scans>, board: string, k: nat)
    requires ValidScans(fields, scans)
    requires k < |fields| && NameMatches(role, fields[k].name)
    requires forall j :: k < j < |fields| ==> !NameMatches(role, fields[j].name)
    requires HasCandidate(role, fields[k], board)
    ensures ResolveRole(role, fields, scans, board).fieldID == Some(fields[k].id)
    ensures ResolveRole(role, fields, scans, board).valueID.Some?
    ensures IsChoice(role, fields[k], board, ResolveRole(role, fields, scans, board).valueID.value)
  {
    SuffixIgnored(role, fields, scans, board, k + 1);
    ResolveRoleUnfold(role, fields, scans, board, k);
    var f, s := fields[k], scans[k];
    assert IsEnumeration(f.options, ScanOf(s, role));
    StepChoice(role, f, s, board);
    var before := ResolveRole(role, fields[..k], scans[..k], board);
    assert ResolveRole(role, fields, scans, board) == RoleStep(role, before, f, s, board);
    if role == Release {
      assert RoleStep(role, before, f, s, board) == Target(Some(f.id), Some(Latest(s.release).1));
    } else {
      var r := FirstPick(role, ScanOf(s, role), board);
      assert RoleStep(role, before, f, s, board) == Target(Some(f.id), r);
    }
  }

  // Scenarios.

  /**
   * Options "v1.30", "v1.32" and "stable" on a release field: whatever the
   * enumeration order, the option with the newest version is chosen and the
   * one without a version is ignored.
   */
  lemma NewestReleaseChosen(scans: seq<Scans>, board: string)
    requires ValidScans([ProjectField("F", "K8s Release", map["v1.30" := "id1", "v1.32" := "id2", "stable" := "id3"])], scans)
    ensures ResolveRole(Release, [ProjectField("F", "K8s Release", map["v1.30" := "id1", "v1.32" := "id2", "stable" := "id3"])], scans, board)
      == Target(Some("F"), Some("id2"))
  {
    var options := map["v1.30" := "id1", "v1.32" := "id2", "stable" := "id3"];
    var f := ProjectField("F", "K8s Release", options);
    ReleaseFieldFacts(f, board);
    ResolvedValueFromLastField(Release, [f], scans, board, 0);
    var t := ResolveRole(Release, [f], scans, board);
    var name :| name in options && options[name] == t.valueID.value && IsNewest(options, name);
    assert name == "v1.32";
  }

  lemma ReleaseFieldFacts(f: ProjectField, board: string)
    requires f == ProjectField("F", "K8s Release", map["v1.30" := "id1", "v1.32" := "id2", "stable" := "id3"])
    ensures NameMatches(Release, f.name)
    ensures HasCandidate(Release, f, board)
    ensures forall name :: name in f.options && IsNewest(f.options, name) ==> name == "v1.32"
  {
    assert ToLower("K8s Release") == "k8s release";
    assert "k8s release" <= ToLower(f.name)[0..];
    ReleaseLabels();
    assert HasCandidate(Release, f, board) by {
      assert "v1.32" in f.options;
    }
    OnlyNewest(f.options);
  }

  lemma OnlyNewest(options: map<string, ID>)
    requires options == map["v1.30" := "id1", "v1.32" := "id2", "stable" := "id3"]
    ensures forall name :: name in options && IsNewest(options, name) ==> name == "v1.32"
  {
    OlderNotNewest(options);
    StableNotNewest(options);
    assert options.Keys == {"v1.30", "v1.32", "stable"};
  }

  lemma OlderNotNewest(options: map<string, ID>)
    requires "v1.32" in options
    ensures !IsNewest(options, "v1.30")
  {
    ReleaseLabels();
    CompareExampleOlder();
    assert ExtractVersion("v1.32") != "";
  }

  lemma StableNotNewest(options: map<string, ID>)
    ensures !IsNewest(options, "stable")
  {
    ReleaseLabels();
  }

  lemma ReleaseLabels()
    ensures ExtractVersion("v1.30") == "1.30" && ExtractVersion("v1.32") == "1.32" && ExtractVersion("stable") == ""
  {
    ShortRelease("v1.30");
    ShortRelease("v1.32");
    var t := "stable";
    assert forall k :: 0 <= k < |t| ==> t[k] != '.';
    ExtractVersionSpec(t);
  }

  /**
   * A board whose only field is "K8s Release" with the option "v1.32":
   * the release role is resolved, and the other three roles keep `nil` for
   * both of their IDs.
   */
  lemma OnlyReleaseResolved(scans: seq<Scans>, board: string)
    requires ValidScans([ProjectField("F", "K8s Release", map["v1.32" := "O"])], scans)
    ensures Resolve([ProjectField("F", "K8s Release", map["v1.32" := "O"])], scans, board)
      == Targets(Target(Some("F"), Some("O")), Target(None, None), Target(None, None), Target(None, None))
  {
    var f := ProjectField("F", "K8s Release", map["v1.32" := "O"]);
    ReleaseOnlyFacts(f, board);
    ReleaseOnlyRelease(f, scans, board);
    ResolvedFieldIsLastMatch(View, [f], scans, board);
    ResolvedFieldIsLastMatch(Status, [f], scans, board);
    ResolvedFieldIsLastMatch(Board, [f], scans, board);
  }

  lemma ReleaseOnlyFacts(f: ProjectField, board: string)
    requires f == ProjectField("F", "K8s Release", map["v1.32" := "O"])
    ensures NameMatches(Release, f.name) && HasCandidate(Release, f, board)
    ensures !NameMatches(View, f.name) && !NameMatches(Status, f.name) && !NameMatches(Board, f.name)
  {
    ReleaseNameLower();
    assert "k8s release" <= ToLower(f.name)[0..];
    ReleaseNameOnlyRelease();
    ReleaseLabels();
    assert HasCandidate(Release, f, board) by { assert "v1.32" in f.options; }
  }

  lemma ReleaseNameLower()
    ensures ToLower("K8s Release") == "k8s release"
  {
  }

  lemma ReleaseNameOnlyRelease()
    ensures !Contains("k8s release", "view") && !Contains("k8s release", "status") && !Contains("k8s release", "board")
  {
    MissingCharNotContained("k8s release", "view", 0);
    MissingCharNotContained("k8s release", "status", 1);
    MissingCharNotContained("k8s release", "board", 0);
  }

  lemma ReleaseOnlyRelease(f: ProjectField, scans: seq<Scans>, board: string)
    requires f == ProjectField("F", "K8s Release", map["v1.32" := "O"])
    requires ValidScans([f], scans)
    requires NameMatches(Release, f.name) && HasCandidate(Release, f, board)
    ensures ResolveRole(Release, [f], scans, board) == Target(Some("F"), Some("O"))
  {
    ResolvedValueFromLastField(Release, [f], scans, board, 0);
    var v := ResolveRole(Release, [f], scans, board).valueID.value;
    var name :| name in f.options && f.options[name] == v;
    assert f.options.Keys == {"v1.32"};
  }

  /** A field named "K8s Release Board" fills both the release and the board role. */
  lemma OneFieldSeveralRoles(options: map<string, ID>, scans: seq<Scans>, board: string)
    requires |scans| == 1
    ensures Resolve([ProjectField("F", "K8s Release Board", options)], scans, board).release.fieldID == Some("F")
    ensures Resolve([ProjectField("F", "K8s Release Board", options)], scans, board).board.fieldID == Some("F")
  {
    var f := ProjectField("F", "K8s Release Board", options);
    MatchesReleaseAndBoard();
    ResolvedFieldIsLastMatch(Release, [f], scans, board);
    ResolvedFieldIsLastMatch(Board, [f], scans, board);
  }

  lemma MatchesReleaseAndBoard()
    ensures NameMatches(Release, "K8s Release Board") && NameMatches(Board, "K8s Release Board")
  {
    var lower := ToLower("K8s Release Board");
    assert lower == "k8s release board";
    assert "k8s release" <= lower[0..];
    assert "board" <= lower[12..];
  }

  /**
   * A later View field whose pass finds nothing keeps its own field ID but
   * the earlier field's value ID.
   */
  lemma StaleValueSurvives(board: string)
    ensures ResolveRole(View,
      [ProjectField("F1", "View", map["Issue-Tracking" := "O1"]), ProjectField("F2", "View", map[])],
      [Scans([], [("Issue-Tracking", "O1")], [], []), Scans([], [], [], [])], board)
      == Target(Some("F2"), Some("O1"))
  {
    var fields := [ProjectField("F1", "View", map["Issue-Tracking" := "O1"]), ProjectField("F2", "View", map[])];
    var scans := [Scans([], [("Issue-Tracking", "O1")], [], []), Scans([], [], [], [])];
    assert ToLower("View") == "view";
    assert "view" <= ToLower("View")[0..];
    assert ToLower("Issue-Tracking") == "issue-tracking";
    assert "issue-tracking" <= ToLower("Issue-Tracking")[0..];
    ResolveRoleUnfold(View, fields, scans, board, 0);
    ResolveRoleUnfold(View, fields, scans, board, 1);
    assert fields[..2] == fields && scans[..2] == scans;
    assert fields[..0] == [] && scans[..0] == [];
  }

  /**
   * The board string is not lower-cased: an option matches only when its
   * lower-cased name occurs in the board string as given, so the empty
   * option name matches every board while "master" does not match "MASTER".
   */
  lemma BoardMatchIsOneSided(board: string)
    ensures Picks(Board, "", board)
    ensures Picks(Board, "Master", "master-blocking")
    ensures !Picks(Board, "master", "MASTER")
  {
    assert ToLower("") == "";
    EmptyIsContained(board);
    assert ToLower("Master") == "master";
    assert "master" <= "master-blocking"[0..];
    assert ToLower("master") == "master";
    assert forall i | 0 <= i <= |"MASTER"| :: !("master" <= "MASTER"[i..]) by {
      forall i | 0 <= i <= |"MASTER"| ensures !("master" <= "MASTER"[i..]) {
        if i == 0 { assert "MASTER"[0..][0] == 'M'; }
      }
    }
  }

  /** A board field whose only option has the empty name takes that option for every board string. */
  lemma EmptyBoardOptionMatchesAnyBoard(scans: seq<Scans>, board: string)
    requires ValidScans([ProjectField("F", "Testgrid Board", map["" := "O"])], scans)
    ensures ResolveRole(Board, [ProjectField("F", "Testgrid Board", map["" := "O"])], scans, board) == Target(Some("F"), Some("O"))
  {
    var f := ProjectField("F", "Testgrid Board", map["" := "O"]);
    assert ToLower(f.name) == "testgrid board";
    assert "board" <= ToLower(f.name)[9..];
    BoardMatchIsOneSided(board);
    assert HasCandidate(Board, f, board) by { assert "" in f.options; }
    ResolvedValueFromLastField(Board, [f], scans, board, 0);
  }

  /**
   * `ResolveTargets`: the loop over the fields. Its eight ID variables are
   * kept as four `Target` pairs, all `nil` at the start. The four role
   * checks are independent `if`s, taken in the source's order (release,
   * view, board, status), so one field can fill several roles.
   */
  method ResolveTargets(fields: seq<ProjectField>, scans: seq<Scans>, board: string) returns (t: Targets)
    requires |scans| == |fields|
    ensures t == Resolve(fields, scans, board)
  {
    t := Targets(Target(None, None), Target(None, None), Target(None, None), Target(None, None));
    for i := 0 to |fields|
      invariant t == Resolve(fields[..i], scans[..i], board)
    {
      ResolveUnfold(fields, scans, board, i);
      var release := StepRole(Release, t.release, fields[i], scans[i], board);
      var view := StepRole(View, t.view, fields[i], scans[i], board);
      var boardTarget := StepRole(Board, t.board, fields[i], scans[i], board);
      var status := StepRole(Status, t.status, fields[i], scans[i], board);
      t := Targets(release, view, status, boardTarget);
    }
    assert fields[..|fields|] == fields && scans[..|scans|] == scans;
  }

  /**
   * One role's block of the loop body: a field whose lower-cased name
   * contains the role's keyword takes over the field ID, and the value ID
   * is replaced only when the role's pass over the options finds one.
   */
  method StepRole(role: Role, t: Target, field: ProjectField, scan: Scans, board: string) returns (t': Target)
    ensures t' == RoleStep(role, t, field, scan, board)
  {
    t' := t;
    var fieldNameLower := ToLower(field.name);
    if Contains(fieldNameLower, Keyword(role)) {
      t' := Target(Some(field.id), t.valueID);
      if role == Release {
        var latestVersion, latestVersionID := FindLatestVersion(scan.release);
        if latestVersionID != "" {
          t' := Target(Some(field.id), Some(latestVersionID));
        }
      } else {
        var found := FindOption(role, ScanOf(scan, role), board);
        if found.Some? {
          t' := Target(Some(field.id), found);
        }
      }
    }
  }

  /** The release pass over one field's options. */
  method FindLatestVersion(opts: seq<Entry>) returns (latestVersion: string, latestVersionID: ID)
    ensures (latestVersion, latestVersionID) == Latest(opts)
  {
    latestVersion, latestVersionID := "", "";
    for i := 0 to |opts|
      invariant (latestVersion, latestVersionID) == Latest(opts[..i])
    {
      assert opts[..i + 1][..i] == opts[..i];
      var (optName, optID) := opts[i];
      var version := ExtractVersion(optName);
      if version != "" {
        if latestVersion == "" {
          latestVersion, latestVersionID := version, optID;
        } else {
          var c := CompareVersions(version, latestVersion);
          if c > 0 {
            latestVersion, latestVersionID := version, optID;
          }
        }
      }
    }
    assert opts[..|opts|] == opts;
  }

  /** The View, Status and Board passes: the first option the role picks, then `break`. */
  method FindOption(role: Role, opts: seq<Entry>, board: string) returns (found: Option<ID>)
    requires role != Release
    ensures found == FirstPick(role, opts, board)
  {
    for i := 0 to |opts|
      invariant forall j :: 0 <= j < i ==> !Picks(role, opts[j].0, board)
    {
      if Picks(role, opts[i].0, board) {
        return Some(opts[i].1);
      }
    }
    return None;
  }
}
