/** The values that flow through the runtime: metric snapshots and decision records. */
module Records {

  datatype ProcInfo = ProcInfo(pid: int, name: string, memMB: nat)

  datatype Snapshot = Snapshot(
    timestamp: int,
    cpuPercent: real,
    memUsed: nat,
    memTotal: nat,
    memPercent: real,
    swapUsed: nat,
    swapTotal: nat,
    swapPercent: real,
    diskUsed: nat,
    diskTotal: nat,
    diskPercent: real,
    netRecvMBps: real,
    netSentMBps: real,
    loadAvg1: real,
    loadAvg5: real,
    loadAvg15: real,
    topProcs: seq<ProcInfo>)

  /** The metrics with an alert threshold. */
  datatype Metric = CPU | RAM | DISK

  function Value(s: Snapshot, m: Metric): real {
    match m
    case CPU => s.cpuPercent
    case RAM => s.memPercent
    case DISK => s.diskPercent
  }

  datatype CycleRecord = CycleRecord(
    snapshot: Snapshot,
    action: string,
    analysis: string,
    reason: string,
    command: string,
    cycleNum: int,
    timestamp: int,
    triggerCPU: real,
    triggerRAM: real,
    triggerDisk: real,
    confidence: real)

  /** A record of a fresh decision: no number yet, no triggers, no confidence. */
  function NewCycleRecord(
      snap: Snapshot, action: string, analysis: string, reason: string, command: string): CycleRecord
  {
    CycleRecord(snap, action, analysis, reason, command, 0, snap.timestamp, 0.0, 0.0, 0.0, 0.0)
  }
}
