/**
  The types the proxy advertises, and the casts that make a column returnable:
  `map_type` and `needs_text_cast` (src/types.rs:43-154).
*/
module Types {
  import opened Wrappers

  /** Types the proxy encodes itself, as scalars and as array elements. */
  const KNOWN: set<string> := {
    "bool", "int2", "int4", "int8", "float4", "float8", "numeric", "text", "varchar", "bpchar",
    "name", "oid", "date", "time", "timestamp", "timestamptz", "uuid", "json", "jsonb", "bytea"
  }

  const TEMPORAL: set<string> := {"date", "timestamp", "timestamptz"}

  datatype PgType = Scalar(name: string) | ArrayOf(elem: string)

  const TEXT := Scalar("text")
  const TEXT_ARRAY := ArrayOf("text")

  datatype CastScope = Unreturnable | AlsoTemporal

  predicate IsArrayName(typeName: string) { typeName != "" && typeName[0] == '_' }

  function ArrayTypeOf(elem: string): PgType { if elem in KNOWN then ArrayOf(elem) else TEXT_ARRAY }

  function MapType(typeName: string): PgType {
    if IsArrayName(typeName) then ArrayTypeOf(typeName[1..])
    else if typeName == "smallserial" then Scalar("int2")
    else if typeName == "serial" then Scalar("int4")
    else if typeName == "bigserial" then Scalar("int8")
    else if typeName in KNOWN then Scalar(typeName)
    else TEXT
  }

  function NeedsTextCast(typeName: string, scope: CastScope): (cast: Option<string>)
    ensures cast.Some? ==> cast.value in {"text", "text[]"}
  {
    if IsArrayName(typeName) then
      var elem := typeName[1..];
      if elem != "text" && ArrayTypeOf(elem) == TEXT_ARRAY then Some("text[]")
      else if scope == AlsoTemporal && elem in TEMPORAL then Some("text[]")
      else None
    else if typeName != "text" && MapType(typeName) == TEXT then Some("text")
    else if scope == AlsoTemporal && typeName in TEMPORAL then Some("text")
    else None
  }

  /** The type name the server reports for a column once it is cast. */
  function CastName(typeName: string, cast: Option<string>): string {
    match cast
    case None => typeName
    case Some(c) => if c == "text[]" then "_text" else c
  }

  /** A type that fails only for some values: a date, a timestamp, or an array of them. */
  predicate IsTemporal(typeName: string) {
    typeName in TEMPORAL || (IsArrayName(typeName) && typeName[1..] in TEMPORAL)
  }

  /** What a cast does to the advertised type: nothing, unless dates and timestamps
      are cast too and the column is one. */
  lemma CastKeepsType(typeName: string, scope: CastScope)
    ensures MapType(CastName(typeName, NeedsTextCast(typeName, scope))) == MapType(typeName)
      <==> !(scope == AlsoTemporal && IsTemporal(typeName))
  {
    assert "_text"[1..] == "text";
  }
}
