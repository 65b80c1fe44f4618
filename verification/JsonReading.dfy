/** Reading members of JSON objects with defaults and conversions, None standing for an exception of the library. */
module JsonReading {
  import opened Doubles
  import opened Json
  import opened WordArithmetic
  import opened Wrappers

  type Int64 = n: int | -0x8000_0000_0000_0000 <= n < 0x8000_0000_0000_0000
  type Int32 = n: int | -0x8000_0000 <= n < 0x8000_0000

  function ReadText(j: Json, key: string): Option<string> {
    if !j.Object? then None
    else
      match Find(j.members, key)
      case None => Some("")
      case Some(v) => if v.Text? then Some(v.text) else None
  }

  function ReadBool(j: Json, key: string, absent: bool): Option<bool> {
    if !j.Object? then None
    else
      match Find(j.members, key)
      case None => Some(absent)
      case Some(v) => if v.Bool? then Some(v.flag) else None
  }

  /** A number converts to a 64-bit integer; a fraction is truncated toward zero. */
  function AsInteger(v: Json): Option<int> {
    match v
    case Integer(n) => Some(n)
    case Real(d) => Some(Truncate(d))
    case _ => None
  }

  /** A boolean also converts, but only to integers narrower than the library's own. */
  function AsSmallInteger(v: Json): Option<int> {
    if v.Bool? then Some(if v.flag then 1 else 0) else AsInteger(v)
  }

  function AsReal(v: Json): Option<FiniteDouble> {
    match v
    case Integer(n) => Some(Nearest(n))
    case Real(d) => Some(d)
    case _ => None
  }

  // Narrowing casts to two's-complement integers.
  function NarrowTo64(n: int): Int64 {
    var low := n % WORD;
    if low < 0x8000_0000_0000_0000 then low else low - WORD
  }

  function NarrowTo32(n: int): Int32 {
    var low := n % 0x1_0000_0000;
    if low < 0x8000_0000 then low else low - 0x1_0000_0000
  }

  function ReadInteger(j: Json, key: string): Option<int> {
    if !j.Object? then None
    else
      match Find(j.members, key)
      case None => Some(0)
      case Some(v) => AsInteger(v)
  }

  function ReadWord64(j: Json, key: string): Option<Word64> {
    match ReadInteger(j, key)
    case None => None
    case Some(n) => Some(n % WORD)
  }

  function ReadInt64(j: Json, key: string): Option<Int64> {
    match ReadInteger(j, key)
    case None => None
    case Some(n) => Some(NarrowTo64(n))
  }

  function ReadInt32(j: Json, key: string, absent: Int32): Option<Int32> {
    if !j.Object? then None
    else
      match Find(j.members, key)
      case None => Some(absent)
      case Some(v) =>
        match AsSmallInteger(v)
        case None => None
        case Some(n) => Some(NarrowTo32(n))
  }

  function ReadReal(j: Json, key: string): Option<FiniteDouble> {
    if !j.Object? then None
    else
      match Find(j.members, key)
      case None => Some(ZERO)
      case Some(v) => AsReal(v)
  }

  /** An absent or null member is an absent value; anything else must convert. */
  function ReadOptionalInt32(j: Json, key: string): Option<Option<Int32>> {
    match Get(j, key)
    case None => Some(None)
    case Some(v) =>
      if v.Null? then Some(None)
      else
        match AsSmallInteger(v)
        case None => None
        case Some(n) => Some(Some(NarrowTo32(n)))
  }

  function ReadOptionalReal(j: Json, key: string): Option<Option<FiniteDouble>> {
    match Get(j, key)
    case None => Some(None)
    case Some(v) =>
      if v.Null? then Some(None)
      else
        match AsReal(v)
        case None => None
        case Some(d) => Some(Some(d))
  }
}
