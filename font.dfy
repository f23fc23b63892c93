/**
 * The typed font descriptor of rbx_types: a closed set of weights with fixed numeric
 * discriminants, two styles, and the `FontFace` record built from them.
 */
module Fonts {

  /** An asset address, such as the URI of a font family description. */
  type Content = string

  datatype FontWeight =
    | Thin
    | ExtraLight
    | Light
    | Regular
    | Medium
    | SemiBold
    | Bold
    | ExtraBold
    | Heavy

  /** Every weight, in declaration order. */
  const Weights: seq<FontWeight> :=
    [Thin, ExtraLight, Light, Regular, Medium, SemiBold, Bold, ExtraBold, Heavy]

  /** The explicit discriminant each weight is declared with. */
  function Discriminant(w: FontWeight): (n: int)
    ensures 100 <= n <= 900 && n % 100 == 0
  {
    match w
    case Thin => 100
    case ExtraLight => 200
    case Light => 300
    case Regular => 400
    case Medium => 500
    case SemiBold => 600
    case Bold => 700
    case ExtraBold => 800
    case Heavy => 900
  }

  /** The weights are exactly the nine listed, with no repetition. */
  lemma WeightsListsEveryWeightOnce(w: FontWeight)
    ensures w in Weights
    ensures forall i, j :: 0 <= i < j < |Weights| ==> Weights[i] != Weights[j]
  {
  }

  /** The discriminant of the i-th declared weight is 100 * (i + 1): 100, 200, ..., 900. */
  lemma DiscriminantsAreHundreds(i: nat)
    requires i < |Weights|
    ensures Discriminant(Weights[i]) == 100 * (i + 1)
  {
  }

  /** Discriminants increase with declaration order, so a weight's number identifies it. */
  lemma DiscriminantsIncrease(i: nat, j: nat)
    requires i < |Weights| && j < |Weights|
    ensures i < j <==> Discriminant(Weights[i]) < Discriminant(Weights[j])
    ensures Discriminant(Weights[i]) == Discriminant(Weights[j]) ==> Weights[i] == Weights[j]
  {
    DiscriminantsAreHundreds(i);
    DiscriminantsAreHundreds(j);
  }

  /** Different weights have different discriminants. */
  lemma DiscriminantInjective(v: FontWeight, w: FontWeight)
    ensures Discriminant(v) == Discriminant(w) ==> v == w
  {
  }

  datatype FontStyle = Normal | Italic

  /** A font style is one of exactly two values. */
  lemma TwoStyles(s: FontStyle)
    ensures s == Normal || s == Italic
    ensures Normal != Italic
  {
  }

  /** Equality of font faces is equality of all four fields. */
  datatype FontFace = FontFace(family: Content, weight: FontWeight, style: FontStyle, cachedFaceId: Content)

  /** The constructor: each argument is stored unchanged in the field of the same name. */
  function New(family: Content, weight: FontWeight, style: FontStyle, cachedFaceId: Content): (f: FontFace)
    ensures f.family == family && f.weight == weight && f.style == style && f.cachedFaceId == cachedFaceId
  {
    FontFace(family, weight, style, cachedFaceId)
  }

  /** Two faces are equal exactly when their families, weights, styles and cached face ids are. */
  lemma FontFaceEquality(a: FontFace, b: FontFace)
    ensures a == b <==>
      a.family == b.family && a.weight == b.weight && a.style == b.style && a.cachedFaceId == b.cachedFaceId
  {
  }
}
