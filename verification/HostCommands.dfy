/** The requests the console hands to its workers, the lane of each, and when two polls are the same. */
module HostCommands {
  import opened Options

  datatype Lane = Control | Evidence | Media

  datatype Section = Overview | Progress | Agents | Beliefs | Context | World | Environment | Stack | Artifacts

  /** A page of a journal: the newest, or the one after or before a position. */
  datatype Cursor = Latest | After(position: nat) | Before(position: nat)

  /** The page a section asks for: a pending backfill first, then what follows its cursor, at first the latest. */
  function CursorOf(before: Option<nat>, after: Option<nat>): Cursor {
    match before
    case Some(b) => Before(b)
    case None => match after case Some(a) => After(a) case None => Latest
  }

  datatype ContentPurpose = Inspector | ServiceLog

  datatype FrameSource = WorldFrames | CameraFrontAnnotated | CameraFront | CameraThirdPerson

  /** One preset with its launch toggles. */
  datatype PreflightQuery = PreflightQuery(presetId: string, airsim: bool, perception: string, updateOwnership: string)

  datatype HostCommand =
    | Connect
    | FetchPresets
    | Preflight(requestId: nat, query: PreflightQuery)
    | Submit(activation: string, credential: string)
    | PollCurrent(credential: string)
    | FetchRunHistory(before: Option<string>, limit: nat)
    | FetchIntent(missionRunId: string, credential: string)
    | Cancel(missionRunId: string, cancellation: string, credential: string)
    | ExportReceipt(missionRunId: string, credential: string)
    | FetchOperatorView(missionRunId: string, section: Section, cursor: Cursor, raw: bool, etag: Option<string>, requestId: nat)
    | FetchArtifactContent(purpose: ContentPurpose, missionRunId: string, artifactId: string, offset: nat, limit: nat)
    | FetchConversationEntries(missionRunId: string, artifactId: string)
    | FetchWorldFrame(missionRunId: string, source: FrameSource, etag: Option<string>)

  datatype PollKey =
    | ConnectKey
    | PresetsKey
    | PreflightKey(query: PreflightQuery)
    | CurrentKey
    | RunHistoryKey(before: Option<string>)
    | IntentKey(missionRunId: string)
    | OperatorViewKey(missionRunId: string, section: Section, cursor: Cursor, raw: bool)
    | ArtifactContentKey(purpose: ContentPurpose, missionRunId: string, artifactId: string, offset: nat, limit: nat)
    | ConversationKey(missionRunId: string, artifactId: string)
    | WorldFrameKey(missionRunId: string, source: FrameSource)

  /** The polls that a finished run issues once more, each at most once. */
  datatype RefreshKey =
    | CurrentRefresh
    | SectionRefresh(section: Section)
    | ServiceLogRefresh(artifactId: string, offset: nat)
    | ConversationRefresh(artifactId: string)
    | FrameRefresh(source: FrameSource)

  function LaneOf(c: HostCommand): Lane {
    match c
    case FetchOperatorView(_, _, _, _, _, _) => Evidence
    case FetchArtifactContent(_, _, _, _, _) => Evidence
    case FetchConversationEntries(_, _) => Evidence
    case FetchWorldFrame(_, _, _) => Media
    case _ => Control
  }

  /** The coalescing key; none for mutations, which always run. */
  function KeyOf(c: HostCommand): Option<PollKey> {
    match c
    case Submit(_, _) => None
    case Cancel(_, _, _) => None
    case ExportReceipt(_, _) => None
    case Connect => Some(ConnectKey)
    case FetchPresets => Some(PresetsKey)
    case Preflight(_, query) => Some(PreflightKey(query))
    case PollCurrent(_) => Some(CurrentKey)
    case FetchRunHistory(before, _) => Some(RunHistoryKey(before))
    case FetchIntent(run, _) => Some(IntentKey(run))
    case FetchOperatorView(run, section, cursor, raw, _, _) => Some(OperatorViewKey(run, section, cursor, raw))
    case FetchArtifactContent(purpose, run, artifact, offset, limit) =>
      Some(ArtifactContentKey(purpose, run, artifact, offset, limit))
    case FetchConversationEntries(run, artifact) => Some(ConversationKey(run, artifact))
    case FetchWorldFrame(run, source, _) => Some(WorldFrameKey(run, source))
  }

  function RequestIdOf(c: HostCommand): Option<nat> {
    match c
    case FetchOperatorView(_, _, _, _, _, id) => Some(id)
    case Preflight(id, _) => Some(id)
    case _ => None
  }

  /** The run a command is about, if it names one. */
  function RunIdOf(c: HostCommand): Option<string> {
    match c
    case FetchOperatorView(run, _, _, _, _, _) => Some(run)
    case FetchArtifactContent(_, run, _, _, _) => Some(run)
    case FetchConversationEntries(run, _) => Some(run)
    case FetchWorldFrame(run, _, _) => Some(run)
    case FetchIntent(run, _) => Some(run)
    case Cancel(run, _, _) => Some(run)
    case ExportReceipt(run, _) => Some(run)
    case _ => None
  }

  /** What changes a mission and must never be coalesced: exactly these commands have no key. */
  predicate IsMutation(c: HostCommand): (mutates: bool)
    ensures mutates <==> KeyOf(c).None?
  {
    c.Submit? || c.Cancel? || c.ExportReceipt?
  }

  /** The request without what a poll may vary: its identity, its validator, its credential, its page size. */
  function Normalised(c: HostCommand): HostCommand {
    match c
    case Preflight(_, query) => Preflight(0, query)
    case PollCurrent(_) => PollCurrent("")
    case FetchRunHistory(before, _) => FetchRunHistory(before, 0)
    case FetchIntent(run, _) => FetchIntent(run, "")
    case FetchOperatorView(run, section, cursor, raw, _, _) => FetchOperatorView(run, section, cursor, raw, None, 0)
    case FetchWorldFrame(run, source, _) => FetchWorldFrame(run, source, None)
    case _ => c
  }

  /** Polls share a key exactly when they are the same request, and then they share a lane. */
  lemma SameKeySamePoll(c: HostCommand, d: HostCommand)
    requires !IsMutation(c) && !IsMutation(d)
    ensures KeyOf(c) == KeyOf(d) <==> Normalised(c) == Normalised(d)
    ensures KeyOf(c) == KeyOf(d) ==> LaneOf(c) == LaneOf(d)
  {
  }

  /** Frames have a lane of their own and a run's other reads share one; mutations and all other polls share the control lane. */
  lemma LanesApart(c: HostCommand)
    ensures LaneOf(c) == Media <==> c.FetchWorldFrame?
    ensures LaneOf(c) == Control <==> IsMutation(c) || c.FetchIntent? || RunIdOf(c).None?
    ensures RunIdOf(c) == if c.Connect? || c.FetchPresets? || c.Preflight? || c.Submit? || c.PollCurrent? || c.FetchRunHistory? then None
                          else Some(c.missionRunId)
  {
  }
}
