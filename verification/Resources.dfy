/** Identifiers and constants shared by every component of the root task. */
module Resources {

  type PdId = nat
  type SpaceId = nat
  type ObjId = nat

  /** A resource type code: a core type below, or a dynamic code assigned at run time. */
  type Kind = nat

  const KIND_NONE: Kind := 0
  const KIND_ADS: Kind := 1
  const KIND_VMR: Kind := 2
  const KIND_MO: Kind := 3
  const KIND_CPU: Kind := 4
  const KIND_PCPU: Kind := 5
  const KIND_PD: Kind := 6
  const KIND_EP: Kind := 7
  const KIND_RESSPC: Kind := 8
  const KIND_SEL4: Kind := 9
  const KIND_MAX: Kind := 17

  const RT_PD_ID: PdId := 0

  // The spaces that the root task creates for its own components, in creation order.
  const RESSPC_SPACE_ID: SpaceId := 1
  const PD_SPACE_ID: SpaceId := 2
  const ADS_SPACE_ID: SpaceId := 3
  const MO_SPACE_ID: SpaceId := 4
  const CPU_SPACE_ID: SpaceId := 5
  const EP_SPACE_ID: SpaceId := 6
  const CORE_SPACES: set<SpaceId> := {1, 2, 3, 4, 5, 6}

  const SPACE_ID_NULL: SpaceId := 0xFF
  const OBJ_ID_NULL: ObjId := 0xFFFFF

  /** Types whose resources live in the root task's own component spaces. */
  predicate CoreKind(k: Kind) {
    k in {KIND_ADS, KIND_MO, KIND_CPU, KIND_PD, KIND_EP, KIND_RESSPC}
  }

  /** Types whose resources live in spaces that come and go: all but those of the components. */
  predicate SpaceKind(k: Kind) {
    KIND_NONE < k < KIND_MAX && !CoreKind(k)
  }

  /** Names one resource: its type, the space it belongs to, and its ID within that space. */
  datatype ResId = ResId(kind: Kind, space: SpaceId, obj: ObjId)

  /** A registry reference count: a node is unlinked when its count would reach zero. */
  type Count = n: nat | 0 < n witness 1
}
