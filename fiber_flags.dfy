/**
 * Side-effect flags of a fiber.  JavaScript combines them with 32-bit bitwise
 * operators; every flag the reconciler uses is one of the eight bits below and
 * the operators used (`|`, `&`, `& ~`) act bit by bit, so an 8-bit vector
 * computes exactly the same sets.
 */
module FiberFlags {

  type Flags = bv8

  const NoFlags: Flags := 0
  /** The fiber is newly created, or reused but has to be moved. */
  const Placement: Flags := 1
  const Update: Flags := 2
  const ChildDeletion: Flags := 4
  /** The flags below are used by the reconciler but not declared in its flag file: distinct extra bits. */
  const PassiveEffect: Flags := 8
  const Ref: Flags := 16
  const Visibility: Flags := 32
  const DidCapture: Flags := 64
  const ShouldCapture: Flags := 128

  const MutationMask: Flags := Placement | Update | ChildDeletion
  const PassiveMask: Flags := PassiveEffect | ChildDeletion
  const LayoutMask: Flags := Ref

  /** `(flags & flag) !== NoFlags` */
  predicate HasFlag(flags: Flags, flag: Flags)
  {
    flags & flag != NoFlags
  }
}

/** Tags of hook effects (the hook-effect-tag file is not part of this model: distinct bits here). */
module HookEffectTags {
  import opened FiberFlags

  const HookHasEffect: Flags := 1
  const Passive: Flags := 2
}

/** The kinds of fiber. */
module WorkTags {

  datatype WorkTag =
    | FunctionComponent
    | HostRoot
    | HostComponent
    | HostText
    | Fragment
    | ContextProvider
    | SuspenseComponent
    | OffscreenComponent
    /** Dispatched on by `beginWork` but not declared in the tag file. */
    | MemoComponent
}
