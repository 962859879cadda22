/** Runner definitions and what one workflow pod takes from a node. */
module RunnerDemand {
  const HOOKS_OVERHEAD_CPU_M := 320
  const HOOKS_OVERHEAD_MEM_MI := 522

  datatype Runner = Runner(name: string, instanceType: string, vcpu: nat, memoryMi: nat, gpu: nat)

  datatype Kind = Cpu | Mem | Gpu

  /** Amounts of the three resources: milliCPU, MiB, GPUs. */
  datatype Resources = Resources(cpu: int, mem: int, gpu: int) {
    function Get(k: Kind): int {
      match k
      case Cpu => cpu
      case Mem => mem
      case Gpu => gpu
    }

    function Plus(other: Resources): Resources {
      Resources(cpu + other.cpu, mem + other.mem, gpu + other.gpu)
    }

    predicate AtMost(other: Resources) {
      cpu <= other.cpu && mem <= other.mem && gpu <= other.gpu
    }
  }

  /** Resources of one workflow pod: the job container plus the hooks overhead. */
  function PerRunnerTotal(r: Runner): (d: Resources)
    ensures d.cpu >= HOOKS_OVERHEAD_CPU_M && d.mem >= HOOKS_OVERHEAD_MEM_MI && d.gpu >= 0
  {
    Resources(r.vcpu * 1000 + HOOKS_OVERHEAD_CPU_M, r.memoryMi + HOOKS_OVERHEAD_MEM_MI, r.gpu)
  }

  /** What a pod takes: what its runner asks for, and 320 milliCPU and 522 MiB more. */
  function Request(r: Runner, k: Kind): int {
    match k
    case Cpu => 1000 * r.vcpu + 320
    case Mem => r.memoryMi + 522
    case Gpu => r.gpu
  }

  lemma RequestIs(r: Runner, k: Kind)
    ensures PerRunnerTotal(r).Get(k) == Request(r, k)
  {
  }
}
