/** One OS mapping (mstore/client.py, _MappingState): the four updates that run under the
    mapping's own lock. */
module Mapping {
  import opened Core

  /** The cache key of an open(). */
  datatype Key = Key(objectId: string, token: string, mode: string)

  /** exports counts live NumPy views and memoryviews; blocked records that a close attempt
      met one (BufferError); everExported that there ever was one. */
  datatype Map = Map(leases: nat, cached: bool, closed: bool, exports: nat, blocked: bool, everExported: bool)

  const FRESH := Map(0, false, false, 0, false, false)

  function MaybeClose(m: Map): Map {
    if m.cached || m.leases != 0 || m.closed then m
    else if m.exports > 0 then m.(blocked := true)
    else m.(closed := true)
  }

  /** acquire; None for the RuntimeError. */
  function Acquire(m: Map): Option<Map> {
    if m.closed then None else Some(m.(leases := m.leases + 1))
  }

  function Release(m: Map): Map {
    MaybeClose(if m.leases > 0 then m.(leases := m.leases - 1) else m)
  }

  function SetCached(m: Map, cached: bool): Map {
    MaybeClose(m.(cached := cached))
  }

  function Export(m: Map): Map {
    m.(exports := m.exports + 1, everExported := true)
  }

  function Unexport(m: Map): Map {
    if m.exports > 0 then m.(exports := m.exports - 1) else m
  }
}
