/** Tasks as `parse_task` admits them. */
module Contracts {
  import opened Wrappers
  import opened Texts

  datatype Execution = Broker | Local | Service

  /** `scoped` tells whether the resources of the stage name the GPUs it may use. */
  datatype Stage = Stage(id: Text, execution: Execution, deployment: Option<Text>, scoped: bool)

  datatype Guardrail = Guardrail(workload: Text, minSpeedup: real)

  datatype Task = Task(
    taskId: Text, digest: Text, workloads: seq<Text>, primary: seq<Text>,
    guardrails: seq<Guardrail>, noise: real, stages: seq<Stage>)

  /** The guarantees of the task parser that the rest of the system relies on. */
  predicate ValidTask(task: Task) {
    && task.workloads != [] && Distinct(task.workloads)
    && task.primary != [] && (forall w :: w in task.primary ==> w in task.workloads)
    && (forall g :: g in task.guardrails ==> g.workload in task.workloads && g.minSpeedup > 0.0)
    && 0.0 <= task.noise < 1.0
    && task.stages != []
    && (forall s :: s in task.stages && s.deployment.Some? ==> s.execution.Service?)
  }

  /** The managed deployments a task refers to. */
  function Deployments(task: Task): set<Text> {
    set s | s in task.stages && s.deployment.Some? :: s.deployment.value
  }
}
