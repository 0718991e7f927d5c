/**
  The result of type checking (a *types.Info) as far as the rule uses it: the Defs and Uses
  maps from identifiers to the objects they denote, each object reduced to the underlying
  type of its type.
 */
module TypeInfo {
  import opened Wrappers
  import opened Ast

  /** `obj.Type().Underlying()`: either a *types.Struct or something else. */
  datatype Shape = StructShape | OtherShape

  /** A types.Object, reduced to the underlying shape of its type. */
  datatype Object = Object(underlying: Shape)

  /** types.Info: `None` stands for a nil map. */
  datatype Info = Info(defs: Option<map<Ident, Object>>, uses: Option<map<Ident, Object>>)

  /** Reading a Go map: a nil map, like a missing key, yields nothing (a nil Object). */
  function Lookup(m: Option<map<Ident, Object>>, id: Ident): (r: Option<Object>)
    ensures r.Some? <==> m.Some? && id in m.value
    ensures r.Some? ==> r.value == m.value[id]
  {
    if m.Some? && id in m.value then Some(m.value[id]) else None
  }

  /** types.Info.ObjectOf: the object an identifier defines, else the one it uses, else nil. */
  function ObjectOf(info: Info, id: Ident): (r: Option<Object>)
    ensures Lookup(info.defs, id).Some? ==> r == Lookup(info.defs, id)
    ensures Lookup(info.defs, id).None? ==> r == Lookup(info.uses, id)
  {
    match Lookup(info.defs, id)
    case Some(obj) => Some(obj)
    case None => Lookup(info.uses, id)
  }
}
