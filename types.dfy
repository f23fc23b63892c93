/**
 * The value side of rbx_types: referents and the closed union of property values.
 * Only the kinds the modelled code touches are listed; see README.md.
 */
module RbxTypes {
  import opened Bytes
  import Fonts

  /** The payload of a non-null referent: a non-zero 128-bit number. */
  type NonZeroU128 = n: int | 0 < n < 0x1_0000_0000_0000_0000_0000_0000_0000_0000 witness 1

  /** An instance identifier; `Null` names no instance (the parent of a root). */
  datatype Ref = Null | Id(id: NonZeroU128) {
    predicate IsNone() {
      Null?
    }

    predicate IsSome() {
      Id?
    }
  }

  /** A referent that names an instance. */
  type NonNullRef = r: Ref | r.Id? witness Id(1)

  /** A property value. Each kind has one in-memory shape. */
  datatype Variant =
    | Bool(b: bool)
    | String(s: string)
    | BinaryString(value: seq<byte>)
    | Font(face: Fonts.FontFace)
    | Referent(r: Ref)
}
