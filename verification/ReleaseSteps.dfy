/**
 The three writers of the store as program counters. Each step makes at most one request to the
 store, so that the requests of several clients may interleave in any order. `etag` is the ETag the
 store would give to a pointer written by the step.
 */
module ReleaseSteps {
  import opened Wrappers
  import opened Documents
  import opened ReleasePlans
  import opened ReleaseStore
  import opened Text

  // ---------- publishing a release ----------

  datatype PublishError =
    | ExistsWithDifferentContent | RemoteVerificationFailed | PointerUnreadable
    | PointerAlreadyExists | StalePointer

  datatype PublishReceipt = PublishReceipt(
    siteId: string, releaseId: string, manifestSha256: Sha, actor: string, recordedAt: string,
    oldEtag: Option<ETag>, newEtag: ETag)

  datatype PublishAt =
    | Uploading(todo: seq<PlannedObject>)
    | Comparing(current: PlannedObject, todo: seq<PlannedObject>)
    | Confirming(current: PlannedObject, todo: seq<PlannedObject>)
    | Verifying(todo: seq<PlannedObject>)
    | ReadingManifest
    | HeadingPointer
    | CreatingPointer
    | ReadingPointer(etag: ETag)
    | SwappingPointer(etag: ETag)
    | FinalReading(newEtag: ETag, oldEtag: Option<ETag>)
    | Published(etag: ETag, pointer: SitePointer, receipt: PublishReceipt)
    | PublishFailed(error: PublishError)

  /** What verifyManifest says of a manifest. */
  datatype Reference = Reference(siteId: string, releaseId: string, manifestSha256: Sha)

  function VerifyManifest(m: Manifest): Reference {
    Reference(m.siteId, m.releaseId, ManifestHash(m))
  }

  /** Who publishes, with the verified reference handed in beside the plan. */
  datatype Publisher = Publisher(actor: string, verified: Reference)

  /** Nothing compares the reference with the plan: callers have to pass the plan's own. */
  predicate Matches(publisher: Publisher, plan: Plan) {
    publisher.verified == VerifyManifest(plan.manifest)
  }

  function PointerOf(publisher: Publisher, plan: Plan): SitePointer {
    var release := publisher.verified;
    SitePointer(release.siteId, release.releaseId, release.manifestSha256, publisher.actor, plan.manifest.createdAt)
  }

  function PublishReceiptOf(publisher: Publisher, plan: Plan, oldEtag: Option<ETag>, newEtag: ETag): PublishReceipt {
    var m := plan.manifest;
    PublishReceipt(m.siteId, m.releaseId, publisher.verified.manifestSha256, publisher.actor, m.createdAt, oldEtag, newEtag)
  }

  /** A pointer to this release with this manifest. */
  predicate Names(pointer: SitePointer, releaseId: string, manifestSha256: Sha) {
    pointer.releaseId == releaseId && pointer.manifestSha256 == manifestSha256
  }

  function PublishStep(s: Store, publisher: Publisher, plan: Plan, at: PublishAt, etag: ETag): (Store, PublishAt) {
    var m := plan.manifest;
    match at
    case Uploading(todo) =>
      if todo == [] then (s, Verifying(Uploads(plan)))
      else
        var (t, created) := CreateIfAbsent(s, KeyOf(plan, todo[0]), StoredObject(todo[0].body, todo[0].contentType));
        (t, if created then Uploading(todo[1..]) else Comparing(todo[0], todo[1..]))
    case Comparing(current, todo) =>
      (s, match Read(s, KeyOf(plan, current))
          case None => PublishFailed(RemoteVerificationFailed)
          case Some(existing) =>
            if ByteLength(existing.body) == ByteLength(current.body) && Sha256(existing.body) == current.sha256
            then Confirming(current, todo)
            else PublishFailed(ExistsWithDifferentContent))
    case Confirming(current, todo) =>
      (s, if Read(s, KeyOf(plan, current)).Some? then Uploading(todo) else PublishFailed(RemoteVerificationFailed))
    case Verifying(todo) =>
      (s, if todo == [] then ReadingManifest
          else match Read(s, KeyOf(plan, todo[0]))
            case None => PublishFailed(RemoteVerificationFailed)
            case Some(head) =>
              if ByteLength(head.body) == todo[0].bytes && head.contentType == todo[0].contentType
              then Verifying(todo[1..])
              else PublishFailed(RemoteVerificationFailed))
    case ReadingManifest =>
      (s, match Read(s, ManifestKey(m.siteId, m.releaseId))
          case None => PublishFailed(RemoteVerificationFailed)
          case Some(remote) =>
            if Sha256(remote.body) == plan.manifestObject.sha256 then HeadingPointer
            else PublishFailed(RemoteVerificationFailed))
    case HeadingPointer =>
      (s, match SiteCell(s, m.siteId)
          case None => CreatingPointer
          case Some(head) => ReadingPointer(head.etag))
    case CreatingPointer =>
      var (t, created) := CreateSitePointer(s, PointerOf(publisher, plan), etag);
      (t, if created then FinalReading(etag, None) else PublishFailed(PointerAlreadyExists))
    case ReadingPointer(head) =>
      (s, match SiteCell(s, m.siteId)
          case None => PublishFailed(PointerUnreadable)
          case Some(current) =>
            if Names(current.content, m.releaseId, publisher.verified.manifestSha256)
            then Published(head, current.content, PublishReceiptOf(publisher, plan, Some(head), head))
            else SwappingPointer(head))
    case SwappingPointer(head) =>
      var (t, swapped) := SwapSitePointer(s, head, PointerOf(publisher, plan), etag);
      (t, if swapped then FinalReading(etag, Some(head)) else PublishFailed(StalePointer))
    case FinalReading(newEtag, oldEtag) =>
      (s, match SiteCell(s, m.siteId)
          case None => PublishFailed(PointerUnreadable)
          case Some(final) =>
            Published(newEtag, final.content, PublishReceiptOf(publisher, plan, oldEtag, newEtag)))
    case Published(_, _, _) => (s, at)
    case PublishFailed(_) => (s, at)
  }

  // ---------- rolling back ----------

  datatype RollbackError =
    | CurrentPointerUnreadable | ExpectedCurrentMismatch | CompilerUnsupported | ExtraObject
    | ReleaseIdMismatch | ManifestHashMismatch | ManifestInvalid | MissingObject | BytesMismatch
    | ContentTypeMismatch | Sha256Mismatch | ReleasePointerMismatch | SiteMismatch | StaleEtag

  datatype RollbackRequest = RollbackRequest(
    siteId: string, releaseId: string, expectedManifestSha256: Sha,
    expectedCurrentReleaseId: string, expectedCurrentManifestSha256: Sha,
    actor: string, recordedAt: string)

  datatype RollbackReceipt = RollbackReceipt(
    siteId: string, releaseId: string, manifestSha256: Sha, actor: string, recordedAt: string,
    fromReleaseId: string, fromManifestSha256: Sha, oldEtag: ETag, newEtag: ETag)

  datatype RollbackAt =
    | ReadingCurrent
    | ReadingTarget(current: Cell<SitePointer>)
    | Listing(current: Cell<SitePointer>, target: Manifest)
    | ReadingArtifacts(current: Cell<SitePointer>, target: Manifest, todo: seq<Artifact>)
    | Swapping(current: Cell<SitePointer>, target: Manifest)
    | CheckingFinal(current: Cell<SitePointer>, target: Manifest, newEtag: ETag)
    | RolledBack(etag: ETag, pointer: SitePointer, receipt: RollbackReceipt)
    | RollbackFailed(error: RollbackError)

  function TargetPointer(r: RollbackRequest, target: Manifest): SitePointer {
    SitePointer(target.siteId, target.releaseId, ManifestHash(target), r.actor, r.recordedAt)
  }

  function RollbackReceiptOf(
    r: RollbackRequest, target: Manifest, fromReleaseId: string, fromManifestSha256: Sha, oldEtag: ETag, newEtag: ETag)
    : RollbackReceipt
  {
    RollbackReceipt(target.siteId, target.releaseId, ManifestHash(target), r.actor, r.recordedAt,
                    fromReleaseId, fromManifestSha256, oldEtag, newEtag)
  }

  /** The keys a release must have: its manifest and every listed artifact. */
  function ExpectedKeys(target: Manifest): set<Key> {
    {ManifestKey(target.siteId, target.releaseId)}
    + set i | 0 <= i < |target.objects| :: ReleaseKey(target.siteId, target.releaseId, target.objects[i].path)
  }

  /** Listing by the release's key prefix. */
  function ListedKeys(s: Store, siteId: string, releaseId: string): set<Key> {
    set key | key in s.objects && key.ReleaseKey? && key.siteId == siteId && key.releaseId == releaseId
  }

  /** The checks of the target's manifest: its parse, its ids, its compiler and its hash. */
  function CheckTarget(r: RollbackRequest, stored: Option<StoredObject>): Result<Manifest, RollbackError> {
    if stored.None? then Err(MissingObject)
    else match ManifestOf(stored.value.body)
      case None => Err(ManifestInvalid)
      case Some(m) =>
        if m.siteId != r.siteId then Err(SiteMismatch)
        else if m.releaseId != r.releaseId then Err(ReleaseIdMismatch)
        else if !StartsWith(m.compilerVersion, "1.") then Err(CompilerUnsupported)
        else if ManifestHash(m) != r.expectedManifestSha256 then Err(ManifestHashMismatch)
        else Ok(m)
  }

  function CheckArtifact(a: Artifact, stored: Option<StoredObject>): Result<StoredObject, RollbackError> {
    if stored.None? then Err(MissingObject)
    else if ByteLength(stored.value.body) != a.bytes then Err(BytesMismatch)
    else if stored.value.contentType != a.contentType then Err(ContentTypeMismatch)
    else if Sha256(stored.value.body) != a.sha256 then Err(Sha256Mismatch)
    else Ok(stored.value)
  }

  /** What follows a complete verification of the target. */
  function Decide(r: RollbackRequest, current: Cell<SitePointer>, target: Manifest): RollbackAt {
    var targetIsCurrent := Names(current.content, target.releaseId, ManifestHash(target));
    var expectedCurrent := Names(current.content, r.expectedCurrentReleaseId, r.expectedCurrentManifestSha256);
    if !expectedCurrent && !targetIsCurrent then RollbackFailed(ExpectedCurrentMismatch)
    else if targetIsCurrent then
      RolledBack(current.etag, current.content,
                 RollbackReceiptOf(r, target, r.expectedCurrentReleaseId, r.expectedCurrentManifestSha256,
                                   current.etag, current.etag))
    else Swapping(current, target)
  }

  function RollbackStep(s: Store, r: RollbackRequest, at: RollbackAt, etag: ETag): (Store, RollbackAt) {
    match at
    case ReadingCurrent =>
      (s, match SiteCell(s, r.siteId)
          case None => RollbackFailed(CurrentPointerUnreadable)
          case Some(current) => ReadingTarget(current))
    case ReadingTarget(current) =>
      (s, match CheckTarget(r, Read(s, ManifestKey(r.siteId, r.releaseId)))
          case Err(error) => RollbackFailed(error)
          case Ok(target) => Listing(current, target))
    case Listing(current, target) =>
      var listed := ListedKeys(s, target.siteId, target.releaseId);
      (s, if !(listed <= ExpectedKeys(target)) then RollbackFailed(ExtraObject)
          else if !(ExpectedKeys(target) <= listed) then RollbackFailed(MissingObject)
          else ReadingArtifacts(current, target, target.objects))
    case ReadingArtifacts(current, target, todo) =>
      (s, if todo == [] then Decide(r, current, target)
          else match CheckArtifact(todo[0], Read(s, ReleaseKey(target.siteId, target.releaseId, todo[0].path)))
            case Err(error) => RollbackFailed(error)
            case Ok(_) => ReadingArtifacts(current, target, todo[1..]))
    case Swapping(current, target) =>
      var (t, swapped) := SwapSitePointer(s, current.etag, TargetPointer(r, target), etag);
      (t, if swapped then CheckingFinal(current, target, etag) else RollbackFailed(StaleEtag))
    case CheckingFinal(current, target, newEtag) =>
      (s, match SiteCell(s, r.siteId)
          case None => RollbackFailed(CurrentPointerUnreadable)
          case Some(final) =>
            if !Names(final.content, target.releaseId, ManifestHash(target)) then RollbackFailed(ReleasePointerMismatch)
            else RolledBack(newEtag, final.content,
                            RollbackReceiptOf(r, target, current.content.releaseId, current.content.manifestSha256,
                                              current.etag, newEtag)))
    case RolledBack(_, _, _) => (s, at)
    case RollbackFailed(_) => (s, at)
  }

  // ---------- publishing the routing manifest ----------

  /** `RequestInvalid` stands for a routing id or a table that its schema refuses. */
  datatype RoutingError =
    | RequestInvalid
    | ManifestExistsWithDifferentContent | PointerConditionFailed | RoutingPointerUnreadable
    | SiteReleaseMissing | SitePointerMissing

  /** `sites` are the sites whose pointer keys the caller lists; `releases` the release manifest keys. */
  datatype RoutingRequest = RoutingRequest(
    table: RoutingTable, routingId: string, sites: seq<string>, releases: seq<Key>, updatedAt: string)

  datatype RoutingAt =
    | PuttingTable
    | ComparingTable
    | CheckingSites(todo: seq<string>)
    | CheckingReleases(keys: seq<Key>)
    | HeadingRouting
    | CreatingRouting
    | ReadingRouting(etag: ETag)
    | SwappingRouting(etag: ETag)
    | Routed(pointer: RoutingPointer)
    | RoutingFailed(error: RoutingError)

  predicate IsRoutingRequest(r: RoutingRequest) {
    IsIdentifier(r.routingId) && IsRoutingTable(r.table)
  }

  function RoutingPointerOf(r: RoutingRequest): RoutingPointer {
    RoutingPointer(r.routingId, Sha256(RoutingBody(r.table)), r.updatedAt)
  }

  function RoutingStep(s: Store, r: RoutingRequest, at: RoutingAt, etag: ETag): (Store, RoutingAt) {
    match at
    case PuttingTable =>
      if !IsRoutingRequest(r) then (s, RoutingFailed(RequestInvalid))
      else
        var (t, created) := CreateIfAbsent(s, RoutingKey(r.routingId), StoredObject(RoutingBody(r.table), JSON_CONTENT_TYPE));
        (t, if created then CheckingSites(r.sites) else ComparingTable)
    case ComparingTable =>
      (s, match Read(s, RoutingKey(r.routingId))
          case None => RoutingFailed(ManifestExistsWithDifferentContent)
          case Some(existing) =>
            if existing.body == RoutingBody(r.table) then CheckingSites(r.sites)
            else RoutingFailed(ManifestExistsWithDifferentContent))
    case CheckingSites(todo) =>
      (s, if todo == [] then CheckingReleases(r.releases)
          else if SiteCell(s, todo[0]).Some? then CheckingSites(todo[1..])
          else RoutingFailed(SitePointerMissing))
    case CheckingReleases(keys) =>
      (s, if keys == [] then HeadingRouting
          else if Read(s, keys[0]).Some? then CheckingReleases(keys[1..])
          else RoutingFailed(SiteReleaseMissing))
    case HeadingRouting =>
      (s, match RoutingCell(s)
          case None => CreatingRouting
          case Some(head) => ReadingRouting(head.etag))
    case CreatingRouting =>
      var (t, created) := CreateRoutingPointer(s, RoutingPointerOf(r), etag);
      (t, if created then Routed(RoutingPointerOf(r)) else RoutingFailed(PointerConditionFailed))
    case ReadingRouting(head) =>
      (s, match RoutingCell(s)
          case None => RoutingFailed(RoutingPointerUnreadable)
          case Some(current) =>
            if current.content == RoutingPointerOf(r) then Routed(RoutingPointerOf(r)) else SwappingRouting(head))
    case SwappingRouting(head) =>
      var (t, swapped) := SwapRoutingPointer(s, head, RoutingPointerOf(r), etag);
      (t, if swapped then Routed(RoutingPointerOf(r)) else RoutingFailed(PointerConditionFailed))
    case Routed(_) => (s, at)
    case RoutingFailed(_) => (s, at)
  }
}
