/** The C integer widths the repository relies on, the usual Option type, and sequences without repetition. */
module CTypes {
  datatype Option<+T> = None | Some(value: T)

  type uint8 = x: int | 0 <= x < 0x100
  type uint16 = x: int | 0 <= x < 0x1_0000
  type uint32 = x: int | 0 <= x < 0x1_0000_0000

  /** The conversion a C assignment to an unsigned variable performs. */
  function ToUint8(x: nat): uint8 { x % 0x100 }
  function ToUint16(x: nat): uint16 { x % 0x1_0000 }
  function ToUint32(x: nat): uint32 { x % 0x1_0000_0000 }

  ghost predicate Distinct<T>(s: seq<T>) {
    forall i, j :: 0 <= i < j < |s| ==> s[i] != s[j]
  }
}
