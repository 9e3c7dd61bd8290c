/**
 Upstream transitions of an installed capability package: the patch for an update, its application,
 the rollback, and the activation state that gates both.
 */
module PackageUpdates {
  import opened Json
  import opened Text
  import opened ManifestDiff

  const ACTIVATION_STATES: set<string> := {"inactive", "active", "degraded", "blocked"}
  const INSTALL_STATES: set<string> := {"not_installed", "registered", "materialized", "installed", "blocked", "failed"}

  // ---------------------------------------------------------------- activation state

  /** `_legacy_install_state`. */
  function LegacyInstallState(status: string): string {
    if status in INSTALL_STATES then status
    else if status in {"available", "ready"} then "installed"
    else if status in {"installing", "pending", "pending_install"} then "registered"
    else if status == "error" then "failed"
    else if status in {"removed", "deleted"} then "not_installed"
    else if status == "" then "registered"
    else "installed"
  }

  function LegacyActivationState(enabled: bool, installState: string): string {
    if installState in {"blocked", "failed"} then "blocked"
    else if installState != "installed" then "inactive"
    else if enabled then "active" else "inactive"
  }

  /** The activation axis of `capability_package_state_projection`: explicit state over legacy fields. */
  function ActivationState(package: Dict): string {
    var status := Lower(TrimmedText(Get(package, "status")));
    var legacy := LegacyActivationState(Get(package, "enabled") != Bool(false), LegacyInstallState(status));
    var explicit := TrimmedText(Get(AsDict(Get(package, "state")), "activation_state"));
    if explicit in ACTIVATION_STATES then explicit else legacy
  }

  predicate IsActive(package: Dict) {
    ActivationState(package) == "active"
  }

  // ---------------------------------------------------------------- snapshots and manifests

  /** `value.get(k1) or value.get(k2) or … or ""`. */
  function FirstTruthy(d: Dict, keys: seq<string>): (v: Json)
    ensures v == Str("") || Truthy(v)
  {
    if keys == [] then Str("")
    else if Truthy(Get(d, keys[0])) then Get(d, keys[0])
    else FirstTruthy(d, keys[1..])
  }

  function FirstText(d: Dict, keys: seq<string>): string {
    PyStr(FirstTruthy(d, keys))
  }

  function Short(sha: string): string {
    if |sha| <= 7 then sha else sha[..7]
  }

  function DisplayVersion(upstream: string, sourceRef: string, sha: string): string {
    if upstream != "" then upstream
    else if sourceRef != "" && sha != "" then sourceRef + "@" + Short(sha)
    else if sha != "" then Short(sha)
    else "unversioned"
  }

  function KeepText(key: string, s: string): Dict {
    if s == "" then map[] else map[key := Str(s)]
  }

  function KeepDict(key: string, d: Dict): Dict {
    if d == map[] then map[] else map[key := Obj(d)]
  }

  /** `CapabilitySourceSnapshot`. */
  datatype Snapshot = Snapshot(
    packageId: string, sourceType: string, sourceUrl: string, sourceRef: string, commitSha: string,
    upstreamVersion: string, snapshotId: string, snapshotPath: string, createdAt: string, contentHash: string,
    provenance: Dict)

  /** `from_dict`, with its alternative keys. */
  function SnapshotFromDict(d: Dict): Snapshot {
    Snapshot(
      FirstText(d, ["package_id", "package"]),
      FirstText(d, ["source_type", "type"]),
      FirstText(d, ["source_url", "url", "repo_url", "repository_url"]),
      FirstText(d, ["source_ref", "ref", "branch"]),
      FirstText(d, ["commit_sha", "commit", "sha"]),
      FirstText(d, ["upstream_version", "release", "tag", "version"]),
      FirstText(d, ["snapshot_id", "source_snapshot_id", "id"]),
      FirstText(d, ["snapshot_path", "path"]),
      FirstText(d, ["created_at"]),
      FirstText(d, ["content_hash", "hash"]),
      AsDict(Get(d, "provenance")))
  }

  function SnapshotCore(s: Snapshot): Dict {
    map[
      "package_id" := Str(s.packageId),
      "source_type" := Str(s.sourceType),
      "source_url" := Str(s.sourceUrl),
      "source_ref" := Str(s.sourceRef),
      "commit_sha" := Str(s.commitSha),
      "upstream_version" := Str(s.upstreamVersion),
      "snapshot_id" := Str(s.snapshotId),
      "snapshot_path" := Str(s.snapshotPath),
      "created_at" := Str(s.createdAt),
      "display_version" := Str(DisplayVersion(s.upstreamVersion, s.sourceRef, s.commitSha))]
  }

  /** `to_dict`: empty hash and provenance are left out, a display version is added. */
  function SnapshotToDict(s: Snapshot): Dict {
    SnapshotCore(s) + KeepText("content_hash", s.contentHash) + KeepDict("provenance", s.provenance)
  }

  /** `normalize_source_snapshot`. */
  function NormalizeSnapshot(v: Json): Dict {
    if AsDict(v) == map[] then map[] else SnapshotToDict(SnapshotFromDict(AsDict(v)))
  }

  function ItemsField(d: Dict, key: string): Json {
    List(DictItems(Items(Get(d, key))))
  }

  /** `CapabilityManifest.from_dict(value).to_dict()`. */
  function NormalizeManifest(v: Json): Dict {
    if !v.Obj? then map[]
    else
      var d := v.fields;
      var findings := AsDict(Get(d, "unmapped_findings"));
      map[
        "package" := Obj(AsDict(Get(d, "package"))),
        "components" := ItemsField(d, "components"),
        "dependency_edges" := ItemsField(d, "dependency_edges"),
        "environment_requirements" := ItemsField(d, "environment_requirements"),
        "credential_requirements" := ItemsField(d, "credential_requirements"),
        "install_plans" := ItemsField(d, "install_plans"),
        "activation_rules" := Obj(AsDict(Get(d, "activation_rules"))),
        "update_metadata" := Obj(AsDict(Get(d, "update_metadata"))),
        "unmapped_findings" := Obj(map k | k in findings && findings[k].List? :: ItemsField(findings, k)),
        "exposed_file_closures" := ItemsField(d, "exposed_file_closures")
      ]
  }

  function FirstVersion(d: Dict, keys: seq<string>): string {
    if keys == [] then ""
    else
      var text := TrimmedText(Get(d, keys[0]));
      if text != "" then text else FirstVersion(d, keys[1..])
  }

  /** `detect_upstream_version`. */
  function DetectVersion(d: Dict): string {
    var version := FirstVersion(d, ["upstream_version", "release", "tag", "version"]);
    var sha := Strip(FirstText(d, ["commit_sha", "commit", "sha"]));
    var sourceRef := Strip(FirstText(d, ["source_ref", "ref", "branch"]));
    if version != "" then version
    else if sourceRef != "" && sha != "" then sourceRef + "@" + Short(sha)
    else if sha != "" then Short(sha)
    else if sourceRef != "" then sourceRef
    else "unversioned"
  }

  function ComponentIds(manifest: Dict): seq<string> {
    IdsInOrder(Items(Get(manifest, "components")))
  }

  function DiffJson(d: Diff): Json {
    Obj(map[
      "added_components" := TextList(d.addedComponents),
      "removed_components" := TextList(d.removedComponents),
      "changed_components" := TextList(d.changedComponents),
      "changed_sections" := TextList(d.changedSections),
      "component_count_before" := Int(d.countBefore),
      "component_count_after" := Int(d.countAfter),
      "dependency_edge_delta" := Int(d.edgeDelta),
      "environment_requirement_delta" := Int(d.environmentDelta),
      "credential_requirement_delta" := Int(d.credentialDelta)])
  }

  // ---------------------------------------------------------------- update and rollback

  /** `build_update_transition_patch`. */
  function BuildPatch(packageId: string, current: Dict, nextSnapshot: Json, nextManifest: Json,
                      transitionId: string, impact: string): Dict
  {
    var snapshot := NormalizeSnapshot(nextSnapshot);
    var manifest := NormalizeManifest(nextManifest);
    var currentSnapshot := NormalizeSnapshot(Obj(AsDict(Get(current, "source_snapshot"))));
    var currentManifest := AsDict(Get(current, "manifest"));
    var snapshotId := TrimmedText(Get(snapshot, "snapshot_id"));
    var patchId := if Strip(transitionId) != "" then Strip(transitionId)
                   else packageId + ":" + (if snapshotId != "" then snapshotId else DetectVersion(snapshot));
    map[
      "transition_id" := Str(patchId),
      "package_id" := Str(packageId),
      "upstream_version" := Str(DetectVersion(snapshot)),
      "source_snapshot" := Obj(snapshot),
      "manifest" := Obj(manifest),
      "manifest_diff" := DiffJson(Compare(Obj(currentManifest), Obj(manifest))),
      "previous_snapshot_id" := Str(TrimmedText(Get(currentSnapshot, "snapshot_id"))),
      "previous_source_snapshot" := Obj(currentSnapshot),
      "previous_manifest" := Obj(currentManifest),
      "impact_summary" := Str(Strip(impact)),
      "activation_required" := Bool(true),
      "state" := Obj(map["update_state" := Str("candidate_ready")])]
  }

  function OrDict(a: Dict, b: Dict): Dict {
    if a != map[] then a else b
  }

  function WithSnapshot(package: Dict, snapshot: Dict): Dict {
    if snapshot == map[] then package else package["source_snapshot" := Obj(snapshot)]
  }

  function WithManifest(package: Dict, manifest: Dict): Dict {
    if manifest == map[] then package
    else
      var replaced := package["manifest" := Obj(manifest)];
      if ComponentIds(manifest) == [] then replaced else replaced["components" := TextList(ComponentIds(manifest))]
  }

  function Transitioned(state: Dict, active: bool, updateState: string): Dict {
    state["install_state" := Str("installed")]
         ["activation_state" := Str(if active then "active" else "inactive")]
         ["update_state" := Str(updateState)]
  }

  /** The rollback record without its empty entries. */
  function RollbackRecord(current: Dict, patch: Dict): Dict {
    var snapshot := OrDict(NormalizeSnapshot(Obj(AsDict(Get(patch, "previous_source_snapshot")))),
                           NormalizeSnapshot(Obj(AsDict(Get(current, "source_snapshot")))));
    var manifest := OrDict(AsDict(Get(patch, "previous_manifest")), AsDict(Get(current, "manifest")));
    KeepText("snapshot_id", TrimmedText(Or(Get(patch, "previous_snapshot_id"), Get(snapshot, "snapshot_id"))))
    + KeepDict("source_snapshot", snapshot)
    + KeepDict("manifest", manifest)
    + KeepText("transition_id", TrimmedText(Get(patch, "transition_id")))
  }

  /** `apply_update_transition_patch`. */
  function ApplyUpdate(current: Dict, patch: Dict, approved: bool): Dict {
    var nextSnapshot := NormalizeSnapshot(Obj(AsDict(Get(patch, "source_snapshot"))));
    var replaced := WithManifest(WithSnapshot(current, nextSnapshot), AsDict(Get(patch, "manifest")));
    var version := PyStr(Or(Get(patch, "upstream_version"), Str(DetectVersion(nextSnapshot))));
    var active := IsActive(current) && approved;
    replaced["upstream_version" := Str(version)]
            ["status" := Str("installed")]
            ["enabled" := Bool(active)]
            ["rollback" := Obj(RollbackRecord(current, patch))]
            ["last_update" := Obj(map[
              "transition_id" := Str(TrimmedText(Get(patch, "transition_id"))),
              "upstream_version" := Str(version),
              "manifest_diff" := Obj(AsDict(Get(patch, "manifest_diff")))])]
            ["state" := Obj(Transitioned(AsDict(Get(current, "state")), active, "rollback_available"))]
  }

  /** `apply_rollback_transition_patch`. */
  function ApplyRollback(current: Dict, approved: bool): Dict {
    var rollback := AsDict(Get(current, "rollback"));
    var snapshot := NormalizeSnapshot(Obj(AsDict(Get(rollback, "source_snapshot"))));
    var versioned := if snapshot == map[] then current
                     else WithSnapshot(current, snapshot)["upstream_version" := Str(DetectVersion(snapshot))];
    var active := IsActive(current) && approved;
    WithManifest(versioned, AsDict(Get(rollback, "manifest")))
      ["enabled" := Bool(active)]
      ["rollback" := Obj(map[])]
      ["state" := Obj(Transitioned(AsDict(Get(current, "state")), active, "current"))]
  }

  /** `rollback_update_available`. */
  predicate RollbackAvailable(current: Dict) {
    var rollback := AsDict(Get(current, "rollback"));
    && TrimmedText(Get(AsDict(Get(current, "state")), "update_state")) == "rollback_available"
    && rollback != map[]
    && (NormalizeSnapshot(Obj(AsDict(Get(rollback, "source_snapshot")))) != map[] || AsDict(Get(rollback, "manifest")) != map[])
  }

  // ---------------------------------------------------------------- activation is gated

  lemma TransitionedActive(package: Dict, state: Dict, active: bool, updateState: string)
    requires Get(package, "state") == Obj(Transitioned(state, active, updateState))
    ensures IsActive(package) <==> active
    ensures TrimmedText(Get(AsDict(Get(package, "state")), "update_state")) == Strip(updateState)
  {
    hide Strip, Lower, Print;
    StripFixpoint("active");
    StripFixpoint("inactive");
    StripEmpty();
  }

  lemma StripEmpty()
    ensures Strip("") == ""
  {
  }

  /** After an update or a rollback a package is active exactly if it was and the step was approved. */
  lemma ActivationGated(current: Dict, patch: Dict, approved: bool)
    ensures IsActive(ApplyUpdate(current, patch, approved)) <==> IsActive(current) && approved
    ensures IsActive(ApplyRollback(current, approved)) <==> IsActive(current) && approved
  {
    hide Strip, NormalizeSnapshot, WithManifest, WithSnapshot, DetectVersion, RollbackRecord, IsActive, Transitioned, TrimmedText;
    var state, active := AsDict(Get(current, "state")), IsActive(current) && approved;
    TransitionedActive(ApplyUpdate(current, patch, approved), state, active, "rollback_available");
    TransitionedActive(ApplyRollback(current, approved), state, active, "current");
  }

  // ---------------------------------------------------------------- which packages are active

  /**
   The package states that it is active; or it states none of the four activation states, is not
   disabled, and its status is one that means installed: any but those listed.
   */
  ghost predicate InUse(package: Dict) {
    var stated := TrimmedText(Get(AsDict(Get(package, "state")), "activation_state"));
    var status := Lower(TrimmedText(Get(package, "status")));
    || stated == "active"
    || (&& stated !in {"inactive", "degraded", "blocked"}
        && Get(package, "enabled") != Bool(false)
        && status !in {"", "not_installed", "registered", "materialized", "blocked", "failed", "error",
                       "installing", "pending", "pending_install", "removed", "deleted"})
  }

  lemma ActiveExactly(package: Dict)
    ensures IsActive(package) <==> InUse(package)
  {
    LegacyExactly(Get(package, "enabled") != Bool(false), Lower(TrimmedText(Get(package, "status"))));
    hide TrimmedText, Lower, LegacyActivationState, LegacyInstallState;
  }

  lemma LegacyExactly(enabled: bool, status: string)
    ensures LegacyActivationState(enabled, LegacyInstallState(status)) == "active" <==>
              enabled && status !in {"", "not_installed", "registered", "materialized", "blocked", "failed", "error",
                                     "installing", "pending", "pending_install", "removed", "deleted"}
  {
  }

  /** The state of a package after a transition: the three axes are written, the others stay. */
  ghost predicate StateAfter(current: Dict, package: Dict, active: bool, updateState: string) {
    var before, after := AsDict(Get(current, "state")), AsDict(Get(package, "state"));
    && Get(after, "install_state") == Str("installed")
    && Get(after, "activation_state") == Str(if active then "active" else "inactive")
    && Get(after, "update_state") == Str(updateState)
    && forall k :: k !in {"install_state", "activation_state", "update_state"} ==> Get(after, k) == Get(before, k)
  }

  lemma TransitionedState(current: Dict, package: Dict, active: bool, updateState: string)
    requires Get(package, "state") == Obj(Transitioned(AsDict(Get(current, "state")), active, updateState))
    ensures StateAfter(current, package, active, updateState)
  {
  }

  /**
   What a transition does to a package: it is enabled, and active, exactly if it was in use and the
   transition was approved. An update marks it installed and leaves a rollback open, a rollback closes it.
   */
  lemma TransitionEffects(current: Dict, patch: Dict, approved: bool)
    ensures var on := InUse(current) && approved;
            var u := ApplyUpdate(current, patch, approved);
            && Get(u, "enabled") == Bool(on) && Get(u, "status") == Str("installed") && StateAfter(current, u, on, "rollback_available")
    ensures var on := InUse(current) && approved;
            var b := ApplyRollback(current, approved);
            && Get(b, "enabled") == Bool(on) && Get(b, "status") == Get(current, "status") && StateAfter(current, b, on, "current")
            && Get(b, "last_update") == Get(current, "last_update")
  {
    ActiveExactly(current);
    var on := InUse(current) && approved;
    UpdateWrites(current, patch, approved);
    RollbackWrites(current, approved);
    hide *;
    TransitionedState(current, ApplyUpdate(current, patch, approved), on, "rollback_available");
    TransitionedState(current, ApplyRollback(current, approved), on, "current");
  }

  lemma UpdateWrites(current: Dict, patch: Dict, approved: bool)
    ensures var on := IsActive(current) && approved;
            var u := ApplyUpdate(current, patch, approved);
            && Get(u, "enabled") == Bool(on) && Get(u, "status") == Str("installed")
            && Get(u, "state") == Obj(Transitioned(AsDict(Get(current, "state")), on, "rollback_available"))
  {
    hide NormalizeSnapshot, WithManifest, WithSnapshot, DetectVersion, RollbackRecord, IsActive, Transitioned, TrimmedText, PyStr;
  }

  lemma RollbackWrites(current: Dict, approved: bool)
    ensures var on := IsActive(current) && approved;
            var b := ApplyRollback(current, approved);
            && Get(b, "enabled") == Bool(on) && Get(b, "status") == Get(current, "status") && Get(b, "last_update") == Get(current, "last_update")
            && Get(b, "state") == Obj(Transitioned(AsDict(Get(current, "state")), on, "current"))
  {
    hide NormalizeSnapshot, WithManifest, WithSnapshot, DetectVersion, IsActive, Transitioned, TrimmedText;
    var r := AsDict(Get(current, "rollback"));
    var snapshot, manifest := NormalizeSnapshot(Obj(AsDict(Get(r, "source_snapshot")))), AsDict(Get(r, "manifest"));
    var first := WithSnapshot(current, snapshot);
    var versioned := if snapshot == map[] then current else first["upstream_version" := Str(DetectVersion(snapshot))];
    var second := WithManifest(versioned, manifest);
    WithSnapshotFields(current, snapshot);
    WithManifestFields(versioned, manifest);
    var b := ApplyRollback(current, approved);
    assert Get(b, "status") == Get(second, "status") == Get(versioned, "status") == Get(first, "status");
    assert Get(b, "last_update") == Get(second, "last_update") == Get(versioned, "last_update") == Get(first, "last_update");
  }

  /**
   What an update records: the versions and the diff of the patch built for it, under the id given, or
   else one made of the package and the new snapshot's id or version.
   */
  lemma UpdateRecorded(packageId: string, current: Dict, nextSnapshot: Json, nextManifest: Json,
                       transitionId: string, impact: string, approved: bool)
    ensures var patch := BuildPatch(packageId, current, nextSnapshot, nextManifest, transitionId, impact);
            var u := ApplyUpdate(current, patch, approved);
            var snapshot, last := NormalizeSnapshot(nextSnapshot), AsDict(Get(u, "last_update"));
            && Get(u, "upstream_version") == Str(DetectVersion(snapshot))
            && Get(last, "upstream_version") == Str(DetectVersion(snapshot))
            && Get(last, "manifest_diff") == DiffJson(Compare(Obj(AsDict(Get(current, "manifest"))), Obj(NormalizeManifest(nextManifest))))
            && (Strip(transitionId) != "" ==> Get(last, "transition_id") == Str(Strip(transitionId)))
            && Get(patch, "package_id") == Str(packageId) && Get(patch, "impact_summary") == Str(Strip(impact))
            && Get(patch, "activation_required") == Bool(true)
            && Get(AsDict(Get(patch, "state")), "update_state") == Str("candidate_ready")
            && (Strip(transitionId) == "" ==>
                  var id := TrimmedText(Get(snapshot, "snapshot_id"));
                  Get(patch, "transition_id") == Str(packageId + ":" + (if id != "" then id else DetectVersion(snapshot))))
  {
    var patch := BuildPatch(packageId, current, nextSnapshot, nextManifest, transitionId, impact);
    var diff := Compare(Obj(AsDict(Get(current, "manifest"))), Obj(NormalizeManifest(nextManifest)));
    hide BuildPatch, ApplyUpdate, NormalizeSnapshot, NormalizeManifest, DetectVersion, Compare, DiffJson, Strip, TrimmedText;
    PatchRecords(packageId, current, nextSnapshot, nextManifest, transitionId, impact);
    DiffIsDict(diff);
    VersionNotEmpty(NormalizeSnapshot(nextSnapshot));
    UpdateKeepsRecords(current, patch, approved);
    StripFixpoint(transitionId);
    TextOfText(Strip(transitionId));
  }

  lemma TextOfText(s: string)
    ensures TrimmedText(Str(s)) == Strip(s)
  {
    hide Strip;
  }

  lemma PatchRecords(packageId: string, current: Dict, nextSnapshot: Json, nextManifest: Json, transitionId: string, impact: string)
    ensures var patch := BuildPatch(packageId, current, nextSnapshot, nextManifest, transitionId, impact);
            && Get(patch, "upstream_version") == Str(DetectVersion(NormalizeSnapshot(nextSnapshot)))
            && Get(patch, "manifest_diff") == DiffJson(Compare(Obj(AsDict(Get(current, "manifest"))), Obj(NormalizeManifest(nextManifest))))
            && (Strip(transitionId) != "" ==> Get(patch, "transition_id") == Str(Strip(transitionId)))
            && Get(patch, "package_id") == Str(packageId) && Get(patch, "impact_summary") == Str(Strip(impact))
            && Get(patch, "activation_required") == Bool(true)
            && Get(AsDict(Get(patch, "state")), "update_state") == Str("candidate_ready")
            && var snapshot := NormalizeSnapshot(nextSnapshot);
               var id := TrimmedText(Get(snapshot, "snapshot_id"));
               (Strip(transitionId) == "" ==>
                  Get(patch, "transition_id") == Str(packageId + ":" + (if id != "" then id else DetectVersion(snapshot))))
  {
    hide NormalizeSnapshot, NormalizeManifest, DetectVersion, Compare, DiffJson, Strip, TrimmedText;
  }

  /** An update keeps, for the rollback, the id it ran under and the id of the snapshot it replaced. */
  lemma RollbackNamed(packageId: string, current: Dict, nextSnapshot: Json, nextManifest: Json,
                      transitionId: string, impact: string, approved: bool)
    ensures var patch := BuildPatch(packageId, current, nextSnapshot, nextManifest, transitionId, impact);
            var u := ApplyUpdate(current, patch, approved);
            var record, id := AsDict(Get(u, "rollback")), TrimmedText(Get(patch, "transition_id"));
            var former := TrimmedText(Get(NormalizeSnapshot(Obj(AsDict(Get(current, "source_snapshot")))), "snapshot_id"));
            && Get(record, "transition_id") == (if id == "" then Null else Str(id))
            && Get(record, "snapshot_id") == (if former == "" then Null else Str(former))
  {
    var patch := BuildPatch(packageId, current, nextSnapshot, nextManifest, transitionId, impact);
    hide BuildPatch, ApplyUpdate, NormalizeSnapshot, NormalizeManifest, TrimmedText, RollbackRecord, ComponentIds;
    UpdateFields(current, patch, approved);
    PatchFields(packageId, current, nextSnapshot, nextManifest, transitionId, impact);
    PreviousId(packageId, current, nextSnapshot, nextManifest, transitionId, impact);
    RecordIds(current, patch);
    var former := NormalizeSnapshot(Obj(AsDict(Get(current, "source_snapshot"))));
    TextOfText(TrimmedText(Get(former, "snapshot_id")));
    StripFixpoint(TrimmedText(Get(former, "snapshot_id")));
  }

  lemma PreviousId(packageId: string, current: Dict, nextSnapshot: Json, nextManifest: Json, transitionId: string, impact: string)
    ensures Get(BuildPatch(packageId, current, nextSnapshot, nextManifest, transitionId, impact), "previous_snapshot_id")
            == Str(TrimmedText(Get(NormalizeSnapshot(Obj(AsDict(Get(current, "source_snapshot")))), "snapshot_id")))
  {
    hide NormalizeSnapshot, NormalizeManifest, DetectVersion, Compare, DiffJson, Strip, TrimmedText;
  }

  /** The ids in a rollback record; the patch's own snapshot id counts before that of the snapshot kept. */
  lemma RecordIds(current: Dict, patch: Dict)
    requires Get(patch, "previous_source_snapshot") == Obj(NormalizeSnapshot(Obj(AsDict(Get(current, "source_snapshot")))))
    requires var former := NormalizeSnapshot(Obj(AsDict(Get(current, "source_snapshot"))));
             Get(patch, "previous_snapshot_id") == Str(TrimmedText(Get(former, "snapshot_id")))
    ensures var record, id := RollbackRecord(current, patch), TrimmedText(Get(patch, "transition_id"));
            var former := TrimmedText(Get(NormalizeSnapshot(Obj(AsDict(Get(current, "source_snapshot")))), "snapshot_id"));
            && Get(record, "transition_id") == (if id == "" then Null else Str(id))
            && Get(record, "snapshot_id") == (if former == "" then Null else Str(former))
  {
    var former := NormalizeSnapshot(Obj(AsDict(Get(current, "source_snapshot"))));
    SnapshotIdempotent(Obj(AsDict(Get(current, "source_snapshot"))));
    TextOfText(TrimmedText(Get(former, "snapshot_id")));
    StripFixpoint(TrimmedText(Get(former, "snapshot_id")));
    hide NormalizeSnapshot, TrimmedText, Strip;
  }

  lemma UpdateKeepsRecords(current: Dict, patch: Dict, approved: bool)
    requires Get(patch, "upstream_version").Str? && Get(patch, "upstream_version").s != "" && Get(patch, "manifest_diff").Obj?
    ensures var u := ApplyUpdate(current, patch, approved);
            var last := AsDict(Get(u, "last_update"));
            && Get(u, "upstream_version") == Get(last, "upstream_version") == Get(patch, "upstream_version")
            && Get(last, "manifest_diff") == Get(patch, "manifest_diff")
            && Get(last, "transition_id") == Str(TrimmedText(Get(patch, "transition_id")))
  {
    hide NormalizeSnapshot, DetectVersion, TrimmedText, WithSnapshot, WithManifest, RollbackRecord, Transitioned, IsActive, Print;
  }

  /** After an update a rollback is available exactly if the package had a snapshot or a manifest to go back to. */
  lemma RollbackAvailableExactly(packageId: string, current: Dict, nextSnapshot: Json, nextManifest: Json,
                                 transitionId: string, impact: string, approved: bool)
    ensures var patch := BuildPatch(packageId, current, nextSnapshot, nextManifest, transitionId, impact);
            RollbackAvailable(ApplyUpdate(current, patch, approved)) <==>
              AsDict(Get(current, "source_snapshot")) != map[] || AsDict(Get(current, "manifest")) != map[]
  {
    var patch := BuildPatch(packageId, current, nextSnapshot, nextManifest, transitionId, impact);
    var u := ApplyUpdate(current, patch, approved);
    PatchFields(packageId, current, nextSnapshot, nextManifest, transitionId, impact);
    RollbackKeepsOld(current, patch);
    UpdateWrites(current, patch, approved);
    UpdateFields(current, patch, approved);
    SnapshotIdempotent(Obj(AsDict(Get(current, "source_snapshot"))));
    hide BuildPatch, ApplyUpdate, NormalizeSnapshot, NormalizeManifest, RollbackRecord, RollbackAvailable, TrimmedText;
    hide Transitioned, ComponentIds, IsActive;
    AvailableAfter(u, AsDict(Get(current, "state")), IsActive(current) && approved, RollbackRecord(current, patch));
  }

  lemma AvailableAfter(u: Dict, state: Dict, active: bool, record: Dict)
    requires Get(u, "state") == Obj(Transitioned(state, active, "rollback_available")) && Get(u, "rollback") == Obj(record)
    ensures RollbackAvailable(u) <==> AsDict(Get(record, "source_snapshot")) != map[] || AsDict(Get(record, "manifest")) != map[]
  {
    TransitionedActive(u, state, active, "rollback_available");
    RollbackText();
    SnapshotIdempotent(Obj(AsDict(Get(record, "source_snapshot"))));
    hide NormalizeSnapshot, TrimmedText, Transitioned, IsActive, Strip;
  }

  lemma RollbackText()
    ensures Strip("rollback_available") == "rollback_available"
  {
    StripFixpoint("rollback_available");
  }

  lemma DiffIsDict(d: Diff)
    ensures DiffJson(d).Obj?
  {
  }

  lemma VersionNotEmpty(d: Dict)
    ensures DetectVersion(d) != ""
  {
    hide FirstVersion, FirstText, Strip;
  }

  datatype Transition = Update(patch: Dict, approved: bool) | Rollback(approved: bool)

  function Apply(package: Dict, t: Transition): Dict {
    match t
    case Update(patch, approved) => ApplyUpdate(package, patch, approved)
    case Rollback(approved) => ApplyRollback(package, approved)
  }

  function ApplyAll(package: Dict, ts: seq<Transition>): Dict
    decreases |ts|
  {
    if ts == [] then package else ApplyAll(Apply(package, ts[0]), ts[1..])
  }

  /** No sequence of updates and rollbacks activates a package, and one unapproved step deactivates it. */
  lemma {:induction false} ActiveThroughout(package: Dict, ts: seq<Transition>)
    ensures IsActive(ApplyAll(package, ts)) <==> IsActive(package) && forall t :: t in ts ==> t.approved
    decreases |ts|
  {
    hide ApplyUpdate, ApplyRollback, IsActive;
    if ts != [] {
      var t := ts[0];
      ActivationGated(package, if t.Update? then t.patch else map[], t.approved);
      ActiveThroughout(Apply(package, t), ts[1..]);
      assert forall x :: x in ts <==> x == t || x in ts[1..];
    }
  }

  // ---------------------------------------------------------------- rollback undoes an update

  lemma {:induction false} NoneTruthy(d: Dict, keys: seq<string>)
    requires forall k :: k in keys ==> !Truthy(Get(d, k))
    ensures FirstTruthy(d, keys) == Str("")
  {
    if keys != [] {
      NoneTruthy(d, keys[1..]);
    }
  }

  const OTHER_KEYS: set<string> := {
    "package", "type", "url", "repo_url", "repository_url", "ref", "branch", "commit", "sha",
    "release", "tag", "version", "source_snapshot_id", "id", "path", "hash"}

  lemma SnapshotFields(s: Snapshot)
    ensures var d := SnapshotToDict(s);
            && Get(d, "package_id") == Str(s.packageId) && Get(d, "source_type") == Str(s.sourceType)
            && Get(d, "source_url") == Str(s.sourceUrl) && Get(d, "source_ref") == Str(s.sourceRef)
            && Get(d, "commit_sha") == Str(s.commitSha) && Get(d, "upstream_version") == Str(s.upstreamVersion)
            && Get(d, "snapshot_id") == Str(s.snapshotId) && Get(d, "snapshot_path") == Str(s.snapshotPath)
            && Get(d, "created_at") == Str(s.createdAt) && AsDict(Get(d, "provenance")) == s.provenance
            && Get(d, "content_hash") == (if s.contentHash == "" then Null else Str(s.contentHash))
    ensures forall k :: k in OTHER_KEYS ==> k !in SnapshotToDict(s)
  {
    hide SnapshotCore, OTHER_KEYS;
    CoreFields(s);
    CoreKeys(s);
    OtherKeysUnwritten();
  }

  const CORE_KEYS: set<string> := {
    "package_id", "source_type", "source_url", "source_ref", "commit_sha", "upstream_version", "snapshot_id",
    "snapshot_path", "created_at", "display_version"}

  lemma CoreKeys(s: Snapshot)
    ensures SnapshotCore(s).Keys == CORE_KEYS
    ensures "content_hash" !in CORE_KEYS && "provenance" !in CORE_KEYS
  {
    hide DisplayVersion;
  }

  lemma OtherKeysUnwritten()
    ensures forall k :: k in OTHER_KEYS ==> k !in CORE_KEYS
    ensures "content_hash" !in OTHER_KEYS && "provenance" !in OTHER_KEYS
  {
  }

  lemma CoreFields(s: Snapshot)
    ensures var d := SnapshotCore(s);
            && Get(d, "package_id") == Str(s.packageId) && Get(d, "source_type") == Str(s.sourceType)
            && Get(d, "source_url") == Str(s.sourceUrl) && Get(d, "source_ref") == Str(s.sourceRef)
            && Get(d, "commit_sha") == Str(s.commitSha) && Get(d, "upstream_version") == Str(s.upstreamVersion)
            && Get(d, "snapshot_id") == Str(s.snapshotId) && Get(d, "snapshot_path") == Str(s.snapshotPath)
            && Get(d, "created_at") == Str(s.createdAt)
  {
    hide DisplayVersion;
  }

  /** A field reads back as itself, since none of its alternative keys is written. */
  lemma FieldKept(d: Dict, keys: seq<string>, text: string)
    requires keys != [] && (Get(d, keys[0]) == Str(text) || (text == "" && Get(d, keys[0]) == Null))
    requires forall k :: k in keys[1..] ==> k in OTHER_KEYS
    requires forall k :: k in OTHER_KEYS ==> k !in d
    ensures FirstText(d, keys) == text
  {
    if text == "" {
      forall k | k in keys ensures !Truthy(Get(d, k)) {
        if k != keys[0] { assert k in keys[1..]; }
      }
      NoneTruthy(d, keys);
    }
  }

  lemma SourceFieldsKept(s: Snapshot)
    ensures var r := SnapshotFromDict(SnapshotToDict(s));
            && r.packageId == s.packageId && r.sourceType == s.sourceType && r.sourceUrl == s.sourceUrl
            && r.sourceRef == s.sourceRef && r.commitSha == s.commitSha
  {
    hide SnapshotToDict, FirstText, OTHER_KEYS;
    var d := SnapshotToDict(s);
    SnapshotFields(s);
    OtherKeys();
    FieldKept(d, ["package_id", "package"], s.packageId);
    FieldKept(d, ["source_type", "type"], s.sourceType);
    FieldKept(d, ["source_url", "url", "repo_url", "repository_url"], s.sourceUrl);
    FieldKept(d, ["source_ref", "ref", "branch"], s.sourceRef);
    FieldKept(d, ["commit_sha", "commit", "sha"], s.commitSha);
  }

  /** Writing a snapshot as a dictionary and reading it back is the identity. */
  lemma SnapshotRoundTrip(s: Snapshot)
    ensures SnapshotFromDict(SnapshotToDict(s)) == s
  {
    hide SnapshotToDict, FirstText, OTHER_KEYS;
    var d := SnapshotToDict(s);
    SourceFieldsKept(s);
    SnapshotFields(s);
    OtherKeys();
    FieldKept(d, ["upstream_version", "release", "tag", "version"], s.upstreamVersion);
    FieldKept(d, ["snapshot_id", "source_snapshot_id", "id"], s.snapshotId);
    FieldKept(d, ["snapshot_path", "path"], s.snapshotPath);
    FieldKept(d, ["created_at"], s.createdAt);
    FieldKept(d, ["content_hash", "hash"], s.contentHash);
  }

  lemma OtherKeys()
    ensures "package" in OTHER_KEYS && "type" in OTHER_KEYS && "url" in OTHER_KEYS && "repo_url" in OTHER_KEYS
    ensures "repository_url" in OTHER_KEYS && "ref" in OTHER_KEYS && "branch" in OTHER_KEYS && "commit" in OTHER_KEYS
    ensures "sha" in OTHER_KEYS && "release" in OTHER_KEYS && "tag" in OTHER_KEYS && "version" in OTHER_KEYS
    ensures "source_snapshot_id" in OTHER_KEYS && "id" in OTHER_KEYS && "path" in OTHER_KEYS && "hash" in OTHER_KEYS
  {
  }

  /** Normalising a snapshot twice is normalising it once, and only an empty one normalises to nothing. */
  lemma SnapshotIdempotent(v: Json)
    ensures NormalizeSnapshot(Obj(NormalizeSnapshot(v))) == NormalizeSnapshot(v)
    ensures NormalizeSnapshot(v) == map[] <==> AsDict(v) == map[]
  {
    hide SnapshotFromDict, SnapshotToDict;
    if AsDict(v) != map[] {
      var s := SnapshotFromDict(AsDict(v));
      SnapshotRoundTrip(s);
      SnapshotFields(s);
      assert "package_id" in SnapshotToDict(s);
    }
  }

  /** A field is read under its own key before any other. */
  lemma OwnKeysWin(d: Dict)
    ensures var s := SnapshotFromDict(d);
            && (Truthy(Get(d, "package_id")) ==> s.packageId == PyStr(Get(d, "package_id")))
            && (Truthy(Get(d, "source_type")) ==> s.sourceType == PyStr(Get(d, "source_type")))
            && (Truthy(Get(d, "source_url")) ==> s.sourceUrl == PyStr(Get(d, "source_url")))
            && (Truthy(Get(d, "source_ref")) ==> s.sourceRef == PyStr(Get(d, "source_ref")))
            && (Truthy(Get(d, "commit_sha")) ==> s.commitSha == PyStr(Get(d, "commit_sha")))
            && (Truthy(Get(d, "upstream_version")) ==> s.upstreamVersion == PyStr(Get(d, "upstream_version")))
            && (Truthy(Get(d, "snapshot_id")) ==> s.snapshotId == PyStr(Get(d, "snapshot_id")))
            && (Truthy(Get(d, "snapshot_path")) ==> s.snapshotPath == PyStr(Get(d, "snapshot_path")))
            && (Truthy(Get(d, "created_at")) ==> s.createdAt == PyStr(Get(d, "created_at")))
            && (Truthy(Get(d, "content_hash")) ==> s.contentHash == PyStr(Get(d, "content_hash")))
  {
    hide Truthy, PyStr, Get;
  }

  /** A written snapshot shows its upstream version, or else its ref and the first seven characters of its commit. */
  lemma VersionShown(s: Snapshot)
    ensures var shown := Get(SnapshotToDict(s), "display_version");
            && (s.upstreamVersion != "" ==> shown == Str(s.upstreamVersion))
            && (s.upstreamVersion == "" && s.commitSha == "" ==> shown == Str("unversioned"))
            && (s.upstreamVersion == "" && |s.commitSha| >= 7 ==>
                  shown == Str((if s.sourceRef == "" then "" else s.sourceRef + "@") + s.commitSha[..7]))
  {
  }

  /** The version detected is the first of the four texts that is not blank. */
  lemma VersionDetected(d: Dict, version: string)
    requires version != ""
    ensures var keys := ["upstream_version", "release", "tag", "version"];
            (exists i :: 0 <= i < 4 && TrimmedText(Get(d, keys[i])) == version && forall j :: 0 <= j < i ==> TrimmedText(Get(d, keys[j])) == "") ==>
              DetectVersion(d) == version
  {
    hide TrimmedText, FirstText, Strip, Get, Short;
    var keys := ["upstream_version", "release", "tag", "version"];
    if i :| 0 <= i < 4 && TrimmedText(Get(d, keys[i])) == version && forall j :: 0 <= j < i ==> TrimmedText(Get(d, keys[j])) == "" {
      FirstVersionAt(d, keys, i);
    }
  }

  /** Without such a text the version is made of the ref and the commit, cut to seven characters. */
  lemma VersionComposed(d: Dict)
    requires forall k :: k in {"upstream_version", "release", "tag", "version"} ==> TrimmedText(Get(d, k)) == ""
    ensures var sha := Strip(FirstText(d, ["commit_sha", "commit", "sha"]));
            var sourceRef := Strip(FirstText(d, ["source_ref", "ref", "branch"]));
            var short := if |sha| <= 7 then sha else sha[..7];
            DetectVersion(d) == (if sha == "" && sourceRef == "" then "unversioned" else if sha == "" then sourceRef
                                 else if sourceRef == "" then short else sourceRef + "@" + short)
  {
    hide TrimmedText, FirstText, Strip, Get;
    var keys := ["upstream_version", "release", "tag", "version"];
    assert keys[1..] == ["release", "tag", "version"] && keys[1..][1..] == ["tag", "version"] && keys[1..][1..][1..] == ["version"];
    assert FirstVersion(d, ["version"]) == "";
    assert FirstVersion(d, ["tag", "version"]) == FirstVersion(d, ["version"]);
    assert FirstVersion(d, ["release", "tag", "version"]) == FirstVersion(d, ["tag", "version"]);
  }

  lemma {:induction false} FirstVersionAt(d: Dict, keys: seq<string>, i: nat)
    requires i < |keys| && TrimmedText(Get(d, keys[i])) != "" && forall j :: 0 <= j < i ==> TrimmedText(Get(d, keys[j])) == ""
    ensures FirstVersion(d, keys) == TrimmedText(Get(d, keys[i]))
  {
    hide TrimmedText, Get;
    if i > 0 {
      assert TrimmedText(Get(d, keys[0])) == "";
      forall j | 0 <= j < i - 1 ensures TrimmedText(Get(d, keys[1..][j])) == "" {
        assert keys[1..][j] == keys[j + 1];
      }
      FirstVersionAt(d, keys[1..], i - 1);
    }
  }

  /** What an update leaves behind for the rollback. */
  lemma RollbackKeepsOld(current: Dict, patch: Dict)
    requires Get(patch, "previous_source_snapshot") == Obj(NormalizeSnapshot(Obj(AsDict(Get(current, "source_snapshot")))))
    requires Get(patch, "previous_manifest") == Obj(AsDict(Get(current, "manifest")))
    ensures var r := RollbackRecord(current, patch);
            && AsDict(Get(r, "source_snapshot")) == NormalizeSnapshot(Obj(AsDict(Get(current, "source_snapshot"))))
            && AsDict(Get(r, "manifest")) == AsDict(Get(current, "manifest"))
  {
    hide NormalizeSnapshot, TrimmedText;
    SnapshotIdempotent(Obj(AsDict(Get(current, "source_snapshot"))));
  }

  /** The keys an update or a rollback may write. */
  const WRITTEN: set<string> := {
    "source_snapshot", "manifest", "components", "upstream_version", "status", "enabled", "rollback", "last_update", "state"}

  /**
   Rolling an update back: the manifest and the normalised snapshot are the old ones exactly when there
   was an old one to restore, or the update brought no new one. The component ids are the old manifest's
   if it lists any, else the update's if that lists any, else what they were. No rollback is left, and
   no key but the transition's own is touched.
   */
  lemma RollbackUndoesUpdate(packageId: string, current: Dict, nextSnapshot: Json, nextManifest: Json,
                             transitionId: string, impact: string, approved: bool, approvedBack: bool)
    ensures var patch := BuildPatch(packageId, current, nextSnapshot, nextManifest, transitionId, impact);
            var back := ApplyRollback(ApplyUpdate(current, patch, approved), approvedBack);
            var manifest, snapshot := AsDict(Get(current, "manifest")), NormalizeSnapshot(Obj(AsDict(Get(current, "source_snapshot"))));
            var ids, nextIds := ComponentIds(manifest), ComponentIds(NormalizeManifest(nextManifest));
            && (AsDict(Get(back, "manifest")) == manifest <==> manifest != map[] || !nextManifest.Obj?)
            && Get(back, "components") == (if ids != [] then TextList(ids) else if nextIds != [] then TextList(nextIds) else Get(current, "components"))
            && (Get(back, "components") == TextList(ids) <==> ids != [] || (nextIds == [] && Get(current, "components") == List([])))
            && (NormalizeSnapshot(Obj(AsDict(Get(back, "source_snapshot")))) == snapshot <==> snapshot != map[] || AsDict(nextSnapshot) == map[])
            && !RollbackAvailable(back)
            && forall k :: k !in WRITTEN ==> Get(back, k) == Get(current, k)
  {
    hide NormalizeSnapshot, NormalizeManifest, ComponentIds, RollbackRecord, BuildPatch, ApplyUpdate, ApplyRollback, TrimmedText;
    var patch := BuildPatch(packageId, current, nextSnapshot, nextManifest, transitionId, impact);
    PatchFields(packageId, current, nextSnapshot, nextManifest, transitionId, impact);
    RollbackKeepsOld(current, patch);
    SnapshotIdempotent(nextSnapshot);
    SnapshotIdempotent(Obj(AsDict(Get(current, "source_snapshot"))));
    ManifestNotEmpty(nextManifest);
    UpdateFields(current, patch, approved);
    RollbackFields(ApplyUpdate(current, patch, approved), approvedBack);
    NoIds();
    assert TextList([]) == List([]);
  }

  /** So a package whose old manifest lists no component keeps the update's list beside the old manifest. */
  lemma NewComponentsStay(packageId: string, current: Dict, nextSnapshot: Json, nextManifest: Json,
                          transitionId: string, impact: string, approved: bool, approvedBack: bool)
    requires AsDict(Get(current, "manifest")) != map[] && ComponentIds(AsDict(Get(current, "manifest"))) == []
    requires ComponentIds(NormalizeManifest(nextManifest)) != []
    ensures var patch := BuildPatch(packageId, current, nextSnapshot, nextManifest, transitionId, impact);
            var back := ApplyRollback(ApplyUpdate(current, patch, approved), approvedBack);
            && Get(back, "manifest") == Get(current, "manifest")
            && Get(back, "components") == TextList(ComponentIds(NormalizeManifest(nextManifest)))
  {
    hide BuildPatch, ApplyUpdate, ApplyRollback, ComponentIds, NormalizeManifest, NormalizeSnapshot, RollbackAvailable, WRITTEN;
    RollbackUndoesUpdate(packageId, current, nextSnapshot, nextManifest, transitionId, impact, approved, approvedBack);
  }

  /** Such a package, whose list was right before the update and is wrong after the rollback. */
  lemma RollbackKeepsNewComponents()
    ensures var current := map["manifest" := Obj(map["usage" := Str("u")]), "components" := List([])];
            var next := Obj(map["components" := List([Obj(map["id" := Str("a")])])]);
            var back := ApplyRollback(ApplyUpdate(current, BuildPatch("p", current, Null, next, "t", ""), false), false);
            && Get(current, "components") == TextList(ComponentIds(AsDict(Get(current, "manifest"))))
            && Get(back, "manifest") == Get(current, "manifest")
            && Get(back, "components") == TextList(["a"])
  {
    var manifest := map["usage" := Str("u")];
    var current := map["manifest" := Obj(manifest), "components" := List([])];
    var component := map["id" := Str("a")];
    var next := Obj(map["components" := List([Obj(component)])]);
    assert ComponentIds(manifest) == [];
    assert TextList([]) == List([]);
    assert "usage" in manifest;
    OneComponent(component);
    hide BuildPatch, ApplyUpdate, ApplyRollback, ComponentIds, NormalizeManifest;
    NewComponentsStay("p", current, Null, next, "t", "", false, false);
  }

  lemma OneComponent(component: Dict)
    requires Get(component, "id") == Str("a")
    ensures ComponentIds(NormalizeManifest(Obj(map["components" := List([Obj(component)])]))) == ["a"]
  {
    var items := [Obj(component)];
    PlainId(component);
    hide ItemId;
    assert items[..0] == [] && items[1..] == [];
    assert DictItems(items) == items;
    assert IdsInOrder(items) == ["a"];
  }

  lemma WithManifestFields(package: Dict, manifest: Dict)
    ensures var p := WithManifest(package, manifest);
            && Get(p, "manifest") == (if manifest != map[] then Obj(manifest) else Get(package, "manifest"))
            && Get(p, "components") == (if ComponentIds(manifest) != [] then TextList(ComponentIds(manifest)) else Get(package, "components"))
            && forall k :: k != "manifest" && k != "components" ==> Get(p, k) == Get(package, k)
  {
    NoIds();
    hide ComponentIds;
  }

  lemma NoIds()
    ensures ComponentIds(map[]) == []
  {
  }

  lemma WithSnapshotFields(package: Dict, snapshot: Dict)
    ensures var p := WithSnapshot(package, snapshot);
            && Get(p, "source_snapshot") == (if snapshot != map[] then Obj(snapshot) else Get(package, "source_snapshot"))
            && forall k :: k != "source_snapshot" ==> Get(p, k) == Get(package, k)
  {
  }

  lemma UpdateFields(current: Dict, patch: Dict, approved: bool)
    ensures var u := ApplyUpdate(current, patch, approved);
            var snapshot, manifest := NormalizeSnapshot(Obj(AsDict(Get(patch, "source_snapshot")))), AsDict(Get(patch, "manifest"));
            && Get(u, "rollback") == Obj(RollbackRecord(current, patch))
            && Get(u, "manifest") == (if manifest != map[] then Obj(manifest) else Get(current, "manifest"))
            && Get(u, "components") == (if ComponentIds(manifest) != [] then TextList(ComponentIds(manifest)) else Get(current, "components"))
            && Get(u, "source_snapshot") == (if snapshot != map[] then Obj(snapshot) else Get(current, "source_snapshot"))
            && forall k :: k !in WRITTEN ==> Get(u, k) == Get(current, k)
  {
    hide NormalizeSnapshot, ComponentIds, DetectVersion, TrimmedText, IsActive, Transitioned, RollbackRecord, WithManifest, WithSnapshot, PyStr;
    var snapshot, manifest := NormalizeSnapshot(Obj(AsDict(Get(patch, "source_snapshot")))), AsDict(Get(patch, "manifest"));
    var first := WithSnapshot(current, snapshot);
    var second := WithManifest(first, manifest);
    WithSnapshotFields(current, snapshot);
    WithManifestFields(first, manifest);
    var u := ApplyUpdate(current, patch, approved);
    assert Get(u, "components") == Get(second, "components") && Get(first, "components") == Get(current, "components");
    assert Get(u, "manifest") == Get(second, "manifest") && Get(u, "source_snapshot") == Get(second, "source_snapshot");
    forall k | k !in WRITTEN ensures Get(u, k) == Get(current, k) {
      assert Get(u, k) == Get(second, k) == Get(first, k);
    }
  }

  lemma RollbackFields(current: Dict, approved: bool)
    ensures var b := ApplyRollback(current, approved);
            var r := AsDict(Get(current, "rollback"));
            var snapshot, manifest := NormalizeSnapshot(Obj(AsDict(Get(r, "source_snapshot")))), AsDict(Get(r, "manifest"));
            && Get(b, "rollback") == Obj(map[])
            && Get(b, "manifest") == (if manifest != map[] then Obj(manifest) else Get(current, "manifest"))
            && Get(b, "components") == (if ComponentIds(manifest) != [] then TextList(ComponentIds(manifest)) else Get(current, "components"))
            && Get(b, "source_snapshot") == (if snapshot != map[] then Obj(snapshot) else Get(current, "source_snapshot"))
            && forall k :: k !in WRITTEN ==> Get(b, k) == Get(current, k)
  {
    hide NormalizeSnapshot, ComponentIds, DetectVersion, TrimmedText, IsActive, Transitioned, WithManifest, WithSnapshot;
    var r := AsDict(Get(current, "rollback"));
    var snapshot, manifest := NormalizeSnapshot(Obj(AsDict(Get(r, "source_snapshot")))), AsDict(Get(r, "manifest"));
    var first := WithSnapshot(current, snapshot);
    var versioned := if snapshot == map[] then current else first["upstream_version" := Str(DetectVersion(snapshot))];
    var second := WithManifest(versioned, manifest);
    WithSnapshotFields(current, snapshot);
    WithManifestFields(versioned, manifest);
    var b := ApplyRollback(current, approved);
    assert Get(b, "manifest") == Get(second, "manifest") && Get(b, "source_snapshot") == Get(second, "source_snapshot");
    assert Get(b, "components") == Get(second, "components");
    assert Get(versioned, "components") == (if snapshot == map[] then Get(current, "components") else Get(first, "components"));
    assert Get(versioned, "source_snapshot") == (if snapshot == map[] then Get(current, "source_snapshot") else Get(first, "source_snapshot"));
    assert Get(versioned, "manifest") == (if snapshot == map[] then Get(current, "manifest") else Get(first, "manifest"));
    forall k | k !in WRITTEN ensures Get(b, k) == Get(current, k) {
      assert Get(b, k) == Get(second, k) == Get(versioned, k);
      assert Get(versioned, k) == (if snapshot == map[] then Get(current, k) else Get(first, k));
    }
  }

  lemma ManifestNotEmpty(v: Json)
    ensures NormalizeManifest(v) == map[] <==> !v.Obj?
  {
    if v.Obj? {
      assert "package" in NormalizeManifest(v);
    }
  }

  // ---------------------------------------------------------------- manifests

  /** The sections of a manifest that are lists of dictionaries. */
  const LIST_SECTIONS: set<string> := {
    "components", "dependency_edges", "environment_requirements", "credential_requirements", "install_plans", "exposed_file_closures"}

  lemma {:induction false} DictItemsExactly(items: seq<Json>)
    ensures forall x :: x in DictItems(items) ==> x.Obj?
    ensures forall x: Json :: x.Obj? ==> multiset(DictItems(items))[x] == multiset(items)[x]
    ensures (forall x :: x in items ==> x.Obj?) ==> DictItems(items) == items
  {
    if items != [] {
      DictItemsExactly(items[1..]);
      assert items == [items[0]] + items[1..];
    }
  }

  /**
   Normalising a manifest keeps the dictionaries of its list sections, with their multiplicity, and
   drops whatever else is in them; a normalised manifest is left as it is.
   */
  lemma ManifestNormalized(v: Json, section: string)
    requires v.Obj? && section in LIST_SECTIONS
    ensures var items := Items(Get(NormalizeManifest(v), section));
            && Get(NormalizeManifest(v), section) == List(items)
            && (forall x :: x in items ==> x.Obj?)
            && (forall x: Json :: x.Obj? ==> multiset(items)[x] == multiset(Items(Get(v.fields, section)))[x])
            && ((forall x :: x in Items(Get(v.fields, section)) ==> x.Obj?) ==> items == Items(Get(v.fields, section)))
    ensures NormalizeManifest(Obj(NormalizeManifest(v))) == NormalizeManifest(v)
  {
    SectionNormalized(v, section);
    DictItemsExactly(Items(Get(v.fields, section)));
    ManifestIdempotent(v);
    hide NormalizeManifest, DictItems, LIST_SECTIONS;
  }

  lemma SectionNormalized(v: Json, section: string)
    requires v.Obj? && section in LIST_SECTIONS
    ensures Get(NormalizeManifest(v), section) == ItemsField(v.fields, section)
  {
    hide ItemsField;
  }

  lemma FieldTwice(d: Dict, key: string, e: Dict)
    requires Get(e, key) == ItemsField(d, key)
    ensures ItemsField(e, key) == ItemsField(d, key)
  {
    DictItemsExactly(Items(Get(d, key)));
    DictItemsExactly(DictItems(Items(Get(d, key))));
  }

  lemma ManifestIdempotent(v: Json)
    requires v.Obj?
    ensures NormalizeManifest(Obj(NormalizeManifest(v))) == NormalizeManifest(v)
  {
    var d, e := v.fields, NormalizeManifest(v);
    forall key | key in LIST_SECTIONS ensures ItemsField(e, key) == ItemsField(d, key) {
      SectionNormalized(v, key);
      FieldTwice(d, key, e);
    }
    DictSections(v);
    FindingsTwice(AsDict(Get(d, "unmapped_findings")), AsDict(Get(e, "unmapped_findings")));
    hide NormalizeManifest, ItemsField;
    SameManifest(d, e);
  }

  lemma DictSections(v: Json)
    requires v.Obj?
    ensures var d, e := v.fields, NormalizeManifest(v);
            && AsDict(Get(e, "package")) == AsDict(Get(d, "package"))
            && AsDict(Get(e, "activation_rules")) == AsDict(Get(d, "activation_rules"))
            && AsDict(Get(e, "update_metadata")) == AsDict(Get(d, "update_metadata"))
            && var findings := AsDict(Get(d, "unmapped_findings"));
               AsDict(Get(e, "unmapped_findings")) == map k | k in findings && findings[k].List? :: ItemsField(findings, k)
  {
    hide ItemsField;
  }

  /** Normal forms agree where the sections do. */
  lemma SameManifest(d: Dict, e: Dict)
    requires forall key :: key in LIST_SECTIONS ==> ItemsField(e, key) == ItemsField(d, key)
    requires AsDict(Get(e, "package")) == AsDict(Get(d, "package"))
    requires AsDict(Get(e, "activation_rules")) == AsDict(Get(d, "activation_rules"))
    requires AsDict(Get(e, "update_metadata")) == AsDict(Get(d, "update_metadata"))
    requires var f, g := AsDict(Get(d, "unmapped_findings")), AsDict(Get(e, "unmapped_findings"));
             (map k | k in g && g[k].List? :: ItemsField(g, k)) == (map k | k in f && f[k].List? :: ItemsField(f, k))
    ensures NormalizeManifest(Obj(e)) == NormalizeManifest(Obj(d))
  {
    hide ItemsField, AsDict;
  }

  lemma FindingsTwice(d: Dict, e: Dict)
    requires e == map k | k in d && d[k].List? :: ItemsField(d, k)
    ensures (map k | k in e && e[k].List? :: ItemsField(e, k)) == e
  {
    forall k | k in e ensures ItemsField(e, k) == e[k] {
      FieldTwice(d, k, e);
    }
  }

  lemma PatchFields(packageId: string, current: Dict, nextSnapshot: Json, nextManifest: Json, transitionId: string, impact: string)
    ensures var patch := BuildPatch(packageId, current, nextSnapshot, nextManifest, transitionId, impact);
            && Get(patch, "source_snapshot") == Obj(NormalizeSnapshot(nextSnapshot))
            && Get(patch, "manifest") == Obj(NormalizeManifest(nextManifest))
            && Get(patch, "previous_source_snapshot") == Obj(NormalizeSnapshot(Obj(AsDict(Get(current, "source_snapshot")))))
            && Get(patch, "previous_manifest") == Obj(AsDict(Get(current, "manifest")))
  {
    hide NormalizeSnapshot, NormalizeManifest, DetectVersion, TrimmedText, Compare, DiffJson, Strip;
  }
}
