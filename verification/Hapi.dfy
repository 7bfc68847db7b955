/** The API objects: a Release, the parts it is made of, and the ReleaseVersion that archives one. */
module Hapi {
  import opened Wrappers
  import opened ReleaseKey

  /** Timestamps carry no arithmetic; only the zero value is special. */
  type Time = nat
  const ZERO_TIME: Time := 0

  datatype Code = UNKNOWN | DEPLOYED | DELETED | SUPERSEDED | FAILED | DELETING {
    function Name(): string {
      match this
      case UNKNOWN => "UNKNOWN"
      case DEPLOYED => "DEPLOYED"
      case DELETED => "DELETED"
      case SUPERSEDED => "SUPERSEDED"
      case FAILED => "FAILED"
      case DELETING => "DELETING"
    }
  }

  datatype HookEvent =
    | PRE_INSTALL | POST_INSTALL
    | PRE_DELETE | POST_DELETE
    | PRE_UPGRADE | POST_UPGRADE
    | PRE_ROLLBACK | POST_ROLLBACK

  const EVENTS: map<string, HookEvent> := map[
    "pre-install" := PRE_INSTALL,
    "post-install" := POST_INSTALL,
    "pre-delete" := PRE_DELETE,
    "post-delete" := POST_DELETE,
    "pre-upgrade" := PRE_UPGRADE,
    "post-upgrade" := POST_UPGRADE,
    "pre-rollback" := PRE_ROLLBACK,
    "post-rollback" := POST_ROLLBACK
  ]

  datatype Hook = Hook(
    name: string,
    kind: string,
    path: string,
    manifest: string,
    events: seq<HookEvent>,
    lastRun: Option<Time>)

  datatype Template = Template(name: string, data: string)

  datatype Chart = Chart(name: string, templates: seq<Template>)

  /** The raw text of a Config; an absent Config is None. */
  type Config = Option<string>

  datatype ReleaseSpec = ReleaseSpec(
    chart: Option<Chart>,
    config: Config,
    disableHooks: bool,
    manifest: string,
    hooks: seq<Hook>,
    version: int32,
    recreate: bool,
    timeout: int,
    purge: bool,
    dryRun: bool,
    wait: bool)

  datatype ReleaseStatus = ReleaseStatus(
    code: Code,
    details: string,
    notes: string,
    lastDeployedVersion: int32,
    lastDeployed: Time,
    firstDeployed: Time)

  const EMPTY_STATUS := ReleaseStatus(UNKNOWN, "", "", 0, ZERO_TIME, ZERO_TIME)

  datatype TypeMeta = TypeMeta(kind: string, apiVersion: string)

  const RELEASE_TYPE := TypeMeta("Release", "helm.sh/v1beta1")

  /** The value of a Release at one moment. */
  datatype Snapshot = Snapshot(
    typeMeta: TypeMeta,
    name: string,
    namespace: string,
    spec: ReleaseSpec,
    status: ReleaseStatus)
  {
    function WithCode(code: Code): Snapshot {
      this.(status := status.(code := code))
    }
  }

  /** A Release that a handler holds and updates in place. */
  class Release {
    var typeMeta: TypeMeta
    var name: string
    var namespace: string
    var spec: ReleaseSpec
    var status: ReleaseStatus

    function Now(): Snapshot
      reads this
    {
      Snapshot(typeMeta, name, namespace, spec, status)
    }

    constructor (value: Snapshot)
      ensures Now() == value
    {
      typeMeta, name, namespace, spec, status :=
        value.typeMeta, value.name, value.namespace, value.spec, value.status;
    }
  }

  datatype VersionStatus = VersionStatus(
    code: Code,
    details: string,
    notes: string,
    version: int32,
    deployed: Time)

  /** The labels an archived revision carries. */
  datatype LabelKey = NAME | OWNER | STATUS | VERSION | CREATED_AT | MODIFIED_AT

  type Labels = map<LabelKey, string>

  /** One archived revision as the API server keeps it; `name` is its key. */
  datatype ReleaseVersion = ReleaseVersion(
    name: string,
    namespace: string,
    labels: Labels,
    spec: ReleaseSpec,
    status: VersionStatus)

  /** What the classifier reads of a manifest; absent and empty annotations are the same. */
  datatype Metadata = Metadata(name: string, annotations: map<string, string>)

  datatype Head = Head(version: string, kind: string, metadata: Option<Metadata>) {
    function Annotations(): map<string, string> {
      if metadata.None? then map[] else metadata.value.annotations
    }
  }

  datatype Error =
    | MissingChart
    | MissingRelease
    | InvalidRevision
    | ReleaseNotFound
    | ReleaseExists
    | RenderFailed
    | ParseFailed(file: string)
    | VersionUnavailable(version: string, file: string)
    | DiscoveryFailed
    | ValidationFailed
    | UnknownHook
    | HookFailed
    | KubeFailed
    | PublishFailed
    | ObjectNotFound
    | CorruptedRecord
    | DeletionErrors(count: nat)
}
