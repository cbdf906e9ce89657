/** The exporter's plain records. Timestamps, durations and gauges are integers. */
module Records {

  /** Label values of a directory; kind is the label called type. */
  datatype DirLabels = DirLabels(base: string, stream: string, kind: string)

  datatype WatchEntry = WatchEntry(absPath: string, labels: DirLabels)

  datatype Target = Target(
    base: string, baseLabel: string, dirs: seq<string>,
    maxDepth: int, pattern: string, included: seq<string>)

  datatype DirMetrics = DirMetrics(
    fileCount: nat, oldest: int, newest: int, duration: int,
    success: bool, truncated: bool, labels: DirLabels)

  datatype StreamNode = StreamNode(
    base: string, stream: string, node: string, nodeDir: string, nodeType: string)

  datatype NodeActivity = NodeActivity(
    base: string, stream: string, node: string, nodeType: string,
    lastActivity: int, delay: int, lastFile: string, success: bool)

  datatype NodeBuffer = NodeBuffer(
    base: string, stream: string, node: string, nodeType: string,
    bufferPath: string, fileCount: nat, success: bool)
}
