/** Handles of host objects, as the reconciler sees them: it stores them and passes them back to the host. */
module HostTypes {

  /** Identifies a host container (the noop renderer's `Container` object). */
  type ContainerRef = nat

  /** Identifies a host instance or text instance by its `id`. */
  type InstanceRef = nat

  /** A node that can hold host children: a container or an instance. */
  datatype HostParent = ContainerParent(container: ContainerRef) | InstanceParent(instance: InstanceRef)
}
