/**
  Which nodes may run a step: the hard filters of the scheduler, in the order they are checked.

  `NodeRow` is the value of one row of the node table; `Node` is the object loaded from it, whose
  job counters a scheduling pass raises.
 */
module Policies {
  import opened Wrappers
  import opened StateMachine

  datatype NodeStatus = Online | Offline | Cooldown

  /** The columns of a node that no scheduling pass changes. */
  datatype NodeInfo = NodeInfo(
    id: NodeId,
    name: string,
    host: Option<string>,
    status: NodeStatus,
    sharedRoot: string,
    maxFfmpegJobs: int,
    maxWhisperJobs: int,
    cpuPercent: real,
    memoryPercent: real,
    freeDiskGb: real,
    thermalState: string,
    onBattery: bool,
    lastHeartbeat: Option<Time>)

  datatype NodeRow = NodeRow(
    info: NodeInfo,
    activeJobs: int,
    activeFfmpegJobs: int,
    activeWhisperJobs: int)

  class Node {
    const info: NodeInfo
    var activeJobs: int
    var activeFfmpegJobs: int
    var activeWhisperJobs: int

    function Row(): NodeRow
      reads this
    {
      NodeRow(info, activeJobs, activeFfmpegJobs, activeWhisperJobs)
    }

    /** Loads a row. */
    constructor (row: NodeRow)
      ensures Row() == row
    {
      info := row.info;
      activeJobs := row.activeJobs;
      activeFfmpegJobs := row.activeFfmpegJobs;
      activeWhisperJobs := row.activeWhisperJobs;
    }
  }

  datatype SchedulerConfig = SchedulerConfig(
    sharedRoot: string,
    heartbeatTimeoutSeconds: int,
    maxCpuPercent: real,
    maxMemoryPercent: real,
    minFreeDiskGb: real,
    maxRuntimeOnBatteryMinutes: int,
    nodePriorities: map<string, int>)

  function DefaultConfig(sharedRoot: string, nodePriorities: map<string, int>): SchedulerConfig {
    SchedulerConfig(sharedRoot, 30, 85.0, 85.0, 20.0, 20, nodePriorities)
  }

  datatype Verdict =
    | Eligible
    | NodeOffline
    | HeartbeatExpired
    | SharedRootMismatch
    | CpuTooHigh
    | MemoryTooHigh
    | DiskTooLow
    | ThermalBlocked
    | NodeAvoided
    | BatteryRuntimeBlocked
    | WhisperConcurrencyFull
    | FfmpegConcurrencyFull

  predicate IsWhisperStep(work: Work) {
    work.toolName in {"transcribe_audio", "mlx_whisper", "whisper", "whisper_tool"}
  }

  predicate IsFfmpegStep(work: Work) {
    work.toolName in {"probe_media", "extract_audio", "ffprobe", "ffmpeg"} || "ffmpeg_" <= work.toolName
  }

  /** Neither kind: such steps are not limited per type, and count as generic jobs. */
  predicate IsGenericStep(work: Work) {
    !IsWhisperStep(work) && !IsFfmpegStep(work)
  }

  const MICROSECONDS := 1_000_000

  predicate IsHeartbeatExpired(info: NodeInfo, config: SchedulerConfig, now: Time) {
    info.lastHeartbeat.None? || now - info.lastHeartbeat.value > config.heartbeatTimeoutSeconds * MICROSECONDS
  }

  /** The first filter that rejects the node, if any. */
  function Judge(work: Work, node: NodeRow, config: SchedulerConfig, now: Time): Verdict {
    var info := node.info;
    if info.status != Online then NodeOffline
    else if IsHeartbeatExpired(info, config, now) then HeartbeatExpired
    else if info.sharedRoot != config.sharedRoot then SharedRootMismatch
    else if info.cpuPercent > config.maxCpuPercent then CpuTooHigh
    else if info.memoryPercent > config.maxMemoryPercent then MemoryTooHigh
    else if info.freeDiskGb < config.minFreeDiskGb then DiskTooLow
    else if info.thermalState in {"serious", "critical"} then ThermalBlocked
    else if info.id in work.avoidNodes then NodeAvoided
    else if info.onBattery && work.estimatedRuntimeMinutes > config.maxRuntimeOnBatteryMinutes as real then
      BatteryRuntimeBlocked
    else if IsWhisperStep(work) && node.activeWhisperJobs >= node.info.maxWhisperJobs then WhisperConcurrencyFull
    else if IsFfmpegStep(work) && node.activeFfmpegJobs >= node.info.maxFfmpegJobs then FfmpegConcurrencyFull
    else Eligible
  }

  predicate IsNodeEligible(work: Work, node: NodeRow, config: SchedulerConfig, now: Time) {
    Judge(work, node, config, now) == Eligible
  }

  /** A heartbeat is as good for whole seconds, a million microseconds each, and still good at the last instant of them. */
  lemma FreshForSeconds(info: NodeInfo, config: SchedulerConfig, now: Time)
    ensures !IsHeartbeatExpired(info, config, now) <==>
            exists beat :: info.lastHeartbeat == Some(beat) && now <= beat + 1_000_000 * config.heartbeatTimeoutSeconds
  {
    if !IsHeartbeatExpired(info, config, now) {
      assert info.lastHeartbeat == Some(info.lastHeartbeat.value);
    }
  }

  /** The limit a verdict stands for is broken. */
  predicate Breaks(verdict: Verdict, work: Work, node: NodeRow, config: SchedulerConfig, now: Time) {
    var info, tool := node.info, work.toolName;
    match verdict
    case Eligible => false
    case NodeOffline => info.status == Offline || info.status == Cooldown
    case HeartbeatExpired =>
      info.lastHeartbeat.None? || now > info.lastHeartbeat.value + 1_000_000 * config.heartbeatTimeoutSeconds
    case SharedRootMismatch => info.sharedRoot != config.sharedRoot
    case CpuTooHigh => info.cpuPercent > config.maxCpuPercent
    case MemoryTooHigh => info.memoryPercent > config.maxMemoryPercent
    case DiskTooLow => info.freeDiskGb < config.minFreeDiskGb
    case ThermalBlocked => info.thermalState == "serious" || info.thermalState == "critical"
    case NodeAvoided => info.id in work.avoidNodes
    case BatteryRuntimeBlocked =>
      info.onBattery && work.estimatedRuntimeMinutes > config.maxRuntimeOnBatteryMinutes as real
    case WhisperConcurrencyFull =>
      && (tool == "transcribe_audio" || tool == "mlx_whisper" || tool == "whisper" || tool == "whisper_tool")
      && info.maxWhisperJobs <= node.activeWhisperJobs
    case FfmpegConcurrencyFull =>
      && (tool == "probe_media" || tool == "extract_audio" || tool == "ffprobe" || tool == "ffmpeg" || "ffmpeg_" <= tool)
      && info.maxFfmpegJobs <= node.activeFfmpegJobs
  }

  /** The order in which the limits are looked at. */
  const ORDER := [NodeOffline, HeartbeatExpired, SharedRootMismatch, CpuTooHigh, MemoryTooHigh, DiskTooLow,
                  ThermalBlocked, NodeAvoided, BatteryRuntimeBlocked, WhisperConcurrencyFull, FfmpegConcurrencyFull]

  /** The verdict names the first limit that is broken, and a node is eligible exactly if none is. */
  lemma EligibleExactly(work: Work, node: NodeRow, config: SchedulerConfig, now: Time)
    ensures IsNodeEligible(work, node, config, now) <==>
            forall i | 0 <= i < |ORDER| :: !Breaks(ORDER[i], work, node, config, now)
    ensures !IsNodeEligible(work, node, config, now) ==>
              exists i | 0 <= i < |ORDER| ::
                && ORDER[i] == Judge(work, node, config, now) && Breaks(ORDER[i], work, node, config, now)
                && forall j | 0 <= j < i :: !Breaks(ORDER[j], work, node, config, now)
  {
    var verdict := Judge(work, node, config, now);
    FreshForSeconds(node.info, config, now);
    if verdict != Eligible {
      var i := PlaceOf(verdict);
      assert ORDER[i] == verdict;
    }
  }

  function PlaceOf(verdict: Verdict): (i: nat)
    requires verdict != Eligible
    ensures i < |ORDER| && ORDER[i] == verdict
  {
    match verdict
    case NodeOffline => 0
    case HeartbeatExpired => 1
    case SharedRootMismatch => 2
    case CpuTooHigh => 3
    case MemoryTooHigh => 4
    case DiskTooLow => 5
    case ThermalBlocked => 6
    case NodeAvoided => 7
    case BatteryRuntimeBlocked => 8
    case WhisperConcurrencyFull => 9
    case FfmpegConcurrencyFull => 10
  }

  /** The node with the same columns and at least the same job counts. */
  predicate NoLessBusy(before: NodeRow, after: NodeRow) {
    && after.info == before.info
    && before.activeJobs <= after.activeJobs
    && before.activeFfmpegJobs <= after.activeFfmpegJobs
    && before.activeWhisperJobs <= after.activeWhisperJobs
  }

  /** More jobs never make a node eligible. */
  lemma EligibilityIsAntitone(work: Work, before: NodeRow, after: NodeRow, config: SchedulerConfig, now: Time)
    requires NoLessBusy(before, after) && IsNodeEligible(work, after, config, now)
    ensures IsNodeEligible(work, before, config, now)
  {
  }

  /** No step counts as both kinds. */
  lemma KindsAreDisjoint(work: Work)
    requires IsWhisperStep(work)
    ensures !IsFfmpegStep(work)
  {
    var first := work.toolName[0];
    assert first == 't' || first == 'm' || first == 'w';
    assert "probe_media"[0] == 'p' && "extract_audio"[0] == 'e' && "ffprobe"[0] == 'f' && "ffmpeg"[0] == 'f';
    var prefix := "ffmpeg_";
    assert prefix[0] == 'f' != first;
  }
}
