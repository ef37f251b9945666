/** Bytes and C strings as the binding's C code sees them. */
module Values {

  newtype byte = b: int | 0 <= b < 256

  datatype Option<+T> = None | Some(value: T)

  predicate NulFree(s: seq<byte>) {
    forall i :: 0 <= i < |s| ==> s[i] != 0
  }

  /** The bytes of a NUL-terminated C string, without its terminator. */
  type CString = s: seq<byte> | NulFree(s)

  /** What C code receives from `lua_tostring`: `strlen`, `strdup` and
      `strcpy` all stop at the first NUL of the Lua string. */
  function CStr(s: seq<byte>): (c: CString)
    ensures c <= s
    ensures |c| < |s| ==> s[|c|] == 0
    ensures NulFree(s) ==> c == s
  {
    if s == [] || s[0] == 0 then [] else [s[0]] + CStr(s[1..])
  }

  /** `(int) c` for a plain `char`. The model assumes a signed `char`
      (as on x86), so bytes 128..255 read as -128..-1; where `char` is
      unsigned they would read as 128..255. */
  function SignedChar(b: byte): (n: int)
    ensures -128 <= n < 128
    ensures (n - b as int) % 256 == 0
  {
    if b < 128 then b as int else b as int - 256
  }

  /** `(char) n` for an integer priority: the low eight bits. */
  function ToByte(n: int): (b: byte)
    ensures (b as int - n) % 256 == 0
  {
    (n % 256) as byte
  }

  /** A priority byte survives being read as a signed char and written back. */
  lemma ToByteSignedChar(b: byte)
    ensures ToByte(SignedChar(b)) == b
  {
  }

  /** A Lua priority survives being written as a byte and read back as a
      signed char exactly when it lies in -128..127. */
  lemma SignedCharToByte(n: int)
    ensures SignedChar(ToByte(n)) == n <==> -128 <= n < 128
  {
  }
}

/** The Lua side of the binding, abstracted from the Lua C API stack:
    values, tables as finite maps, and the decode errors a codec raises. */
module Lua {
  import opened Values

  /** Table keys the codecs use: string field names, integer indices, and
      tables used as keys. A table key is compared by identity in Lua, so
      it carries the identity `id` of the table object besides its
      contents: two tables created apart are distinct keys even when equal
      in content. */
  datatype Key = Field(name: string) | Index(i: int) | TableKey(id: nat, contents: map<Key, LuaVal>)

  datatype LuaVal =
    | Nil
    | Boolean(b: bool)
    | Num(n: int)
    | Str(s: seq<byte>)
    | Table(fields: map<Key, LuaVal>)

  /** `lua_getfield` / `lua_gettable`: an absent key reads as nil. */
  function Get(t: map<Key, LuaVal>, k: Key): (v: LuaVal)
    ensures k !in t ==> v == Nil
    ensures k in t ==> v == t[k]
    ensures v != Nil ==> k in t && t[k] == v
  {
    if k in t then t[k] else Nil
  }

  /** The dynamic types `lua_type` distinguishes among the values above. */
  datatype LuaType = TNil | TBoolean | TNumber | TString | TTable

  function TypeOf(v: LuaVal): LuaType {
    match v
    case Nil => TNil
    case Boolean(_) => TBoolean
    case Num(_) => TNumber
    case Str(_) => TString
    case Table(_) => TTable
  }

  /** The `LUA_T*` codes of Lua 5.1's lua.h. */
  function TypeCode(t: LuaType): int {
    match t
    case TNil => 0
    case TBoolean => 1
    case TNumber => 3
    case TString => 4
    case TTable => 5
  }

  /** Why a decode failed: `luaL_checktype` on a non-table argument, or a
      `luaL_error` naming the offending field. */
  datatype DecodeError = NotATable | BadField(message: string)

  datatype Result<+T> = Ok(value: T) | Err(error: DecodeError)
}

/** Bookkeeping of the C heap during a decode: which blocks were
    allocated (`malloc`, `strdup`) and which were released (`free`). */
module Heap {
  import opened Lua

  /** The record itself, or the string copy held by one of its fields. */
  datatype Block = Record | Copy(field: string)

  /** What a decoder returns, together with what it allocated and freed. */
  datatype Decoded<+T> = Decoded(result: Result<T>, acquired: multiset<Block>, released: multiset<Block>)

  /** Every allocated block was released exactly once. */
  predicate Balanced<T>(d: Decoded<T>) {
    d.acquired == d.released
  }
}
