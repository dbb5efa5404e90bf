/**
  The rows the service keeps (internal/models).  Identifiers are UUIDs in the
  program; here they are natural numbers handed out in order of creation, which so
  stand for the creation timestamps too.
  */
module Models {
  import opened Wrappers

  type Id = nat

  datatype Schedule = Schedule(
    id: Id,
    container: string,
    displayName: string,
    stackName: string,
    startCron: string,
    stopCron: string,
    enabled: bool,
    onDemand: bool,
    onDemandUrl: string,
    idleTimeoutSec: int,
    startupDelaySec: int,
    tagId: Option<Id>)

  datatype Tag = Tag(id: Id, name: string, startCron: string, stopCron: string, enabled: bool)

  datatype Stack = Stack(
    id: Id,
    name: string,
    displayName: string,
    startCron: string,
    stopCron: string,
    enabled: bool,
    onDemand: bool,
    onDemandUrl: string,
    primaryContainer: string,
    idleTimeoutSec: int,
    startupDelaySec: int)
}
