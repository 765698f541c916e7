/**
 * The figures `get_instance_stats` derives from the statistics document the
 * Docker daemon reports for a container.  Python indexing into a missing key
 * or a value of the wrong shape raises, and the manager then answers None;
 * here every such case yields `None`.
 */
module StatsDerivation {
  import opened Wrappers
  import opened Json

  datatype Stats = Stats(
    cpuPercent: real,
    memoryUsageMb: real,
    memoryLimitMb: real,
    memoryPercent: real,
    networkRxBytes: Value,
    networkTxBytes: Value)

  /** `v[key]`: a dict that has the key. */
  function Index(v: Value, key: string): (r: Option<Value>)
    ensures r.Some? <==> v.Obj? && DictGet(v.members, key).Some?
  {
    if v.Obj? then DictGet(v.members, key) else None
  }

  /** `v.get(key, default)`: `v` must be a dict. */
  function GetDefault(v: Value, key: string, default: Value): (r: Option<Value>)
    ensures r.Some? <==> v.Obj?
    ensures v.Obj? && DictGet(v.members, key).None? ==> r == Some(default)
  {
    if v.Obj? then Some(DictGet(v.members, key).GetOr(default)) else None
  }

  /** A Python number: an int, or a bool (which Python treats as 0 or 1). */
  function Number(v: Value): Option<int> {
    match v
    case Num(n) => Some(n)
    case Bool(b) => Some(if b then 1 else 0)
    case _ => None
  }

  function Path2(v: Value, k1: string, k2: string): Option<Value> {
    match Index(v, k1)
    case None => None
    case Some(w) => Index(w, k2)
  }

  function Path3(v: Value, k1: string, k2: string, k3: string): Option<Value> {
    match Path2(v, k1, k2)
    case None => None
    case Some(w) => Index(w, k3)
  }

  /** `a - b` for two values Python can subtract. */
  function Delta(a: Option<Value>, b: Option<Value>): Option<int> {
    if a.None? || b.None? then None
    else
      match (Number(a.value), Number(b.value))
      case (Some(x), Some(y)) => Some(x - y)
      case _ => None
  }

  function CpuDelta(raw: Value): Option<int> {
    Delta(Path3(raw, "cpu_stats", "cpu_usage", "total_usage"), Path3(raw, "precpu_stats", "cpu_usage", "total_usage"))
  }

  function SystemDelta(raw: Value): Option<int> {
    Delta(Path2(raw, "cpu_stats", "system_cpu_usage"), Path2(raw, "precpu_stats", "system_cpu_usage"))
  }

  /** `stats['memory_stats'].get(key, 0)` as a number. */
  function MemoryField(raw: Value, key: string): Option<int> {
    match Index(raw, "memory_stats")
    case None => None
    case Some(ms) =>
      match GetDefault(ms, key, Num(0))
      case None => None
      case Some(v) => Number(v)
  }

  /** `stats['networks'].get('eth0', {}).get(key, 0)`. */
  function NetworkCounter(raw: Value, key: string): Option<Value> {
    match Index(raw, "networks")
    case None => None
    case Some(nets) =>
      match GetDefault(nets, "eth0", Obj([]))
      case None => None
      case Some(eth0) => GetDefault(eth0, key, Num(0))
  }

  /** `part / whole * 100`, or 0 when the whole is not positive. */
  function Percent(part: int, whole: int): (p: real)
    ensures whole <= 0 ==> p == 0.0
    ensures whole > 0 && part >= 0 ==> p >= 0.0
    ensures whole > 0 && 0 <= part <= whole ==> p <= 100.0
  {
    if whole > 0 then (part as real / whole as real) * 100.0 else 0.0
  }

  const MiB: real := 1048576.0

  /** The figures `get_instance_stats` returns, before rounding to two decimals. */
  function DeriveStats(raw: Value): (r: Option<Stats>)
    ensures r.Some? <==>
      CpuDelta(raw).Some? && SystemDelta(raw).Some?
      && MemoryField(raw, "usage").Some? && MemoryField(raw, "limit").Some?
      && NetworkCounter(raw, "rx_bytes").Some? && NetworkCounter(raw, "tx_bytes").Some?
  {
    var cpu, system := CpuDelta(raw), SystemDelta(raw);
    var usage, limit := MemoryField(raw, "usage"), MemoryField(raw, "limit");
    var rx, tx := NetworkCounter(raw, "rx_bytes"), NetworkCounter(raw, "tx_bytes");
    if cpu.None? || system.None? || usage.None? || limit.None? || rx.None? || tx.None? then None
    else
      Some(Stats(Percent(cpu.value, system.value), usage.value as real / MiB, limit.value as real / MiB,
                 Percent(usage.value, limit.value), rx.value, tx.value))
  }

  /** No CPU percentage is derived from a non-positive system delta: it is 0. */
  lemma CpuGuard(raw: Value)
    requires DeriveStats(raw).Some?
    ensures SystemDelta(raw).value <= 0 ==> DeriveStats(raw).value.cpuPercent == 0.0
    ensures SystemDelta(raw).value > 0 ==>
      DeriveStats(raw).value.cpuPercent == (CpuDelta(raw).value as real / SystemDelta(raw).value as real) * 100.0
  {
  }

  /** No memory percentage is derived from a non-positive limit: it is 0; otherwise it is usage over limit, times 100. */
  lemma MemoryGuard(raw: Value)
    requires DeriveStats(raw).Some?
    ensures MemoryField(raw, "limit").value <= 0 ==> DeriveStats(raw).value.memoryPercent == 0.0
    ensures MemoryField(raw, "limit").value > 0 ==>
      DeriveStats(raw).value.memoryPercent == (MemoryField(raw, "usage").value as real / MemoryField(raw, "limit").value as real) * 100.0
  {
  }

  /** Missing memory figures count as 0. */
  lemma MissingMemoryIsZero(raw: Value, ms: seq<Member>, key: string)
    requires Index(raw, "memory_stats") == Some(Obj(ms))
    requires DictGet(ms, key).None?
    ensures MemoryField(raw, key) == Some(0)
  {
  }

  /** A missing `eth0` entry, or a missing counter in it, reads as 0. */
  lemma MissingCountersAreZero(raw: Value, nets: seq<Member>, key: string)
    requires Index(raw, "networks") == Some(Obj(nets))
    requires DictGet(nets, "eth0").None? || (DictGet(nets, "eth0").value.Obj? && DictGet(DictGet(nets, "eth0").value.members, key).None?)
    ensures NetworkCounter(raw, key) == Some(Num(0))
  {
    if DictGet(nets, "eth0").None? {
      assert DictGet([], key) == None;
    }
  }

  /** A document without a `networks` entry has no derived figures (the lookup raises KeyError). */
  lemma MissingNetworksFails(raw: Value)
    requires raw.Obj? && DictGet(raw.members, "networks").None?
    ensures DeriveStats(raw).None?
  {
  }
}
