/** JSON values as the gateway sees them after decoding. */
module Json {
  import opened Common
  import opened Text

  /** The bits of a finite double: infinities and not-a-number have the exponent 2047. */
  type Double = bits: nat | bits < 0x1_0000_0000_0000_0000 && bits / 0x10_0000_0000_0000 % 2048 != 2047

  const ONE: Double := 0x3FF0_0000_0000_0000
  const MINUS_ZERO: Double := 0x8000_0000_0000_0000

  datatype Json =
    | Null
    | Bool(bool)
    | Int(number: int)
    | Float(bits: Double)
    | Str(text: string)
    | List(items: seq<Json>)
    | Obj(fields: map<string, Json>)
  {
    /** `value.get(key)` on an object: absent members read as null. */
    function Get(key: string): Json
      requires Obj?
    {
      if key in fields then fields[key] else Null
    }
  }

  predicate IsZero(bits: Double) {
    bits == 0 || bits == MINUS_ZERO
  }

  /** Whether the host language can put the value into a set. */
  predicate Hashable(value: Json) {
    !value.List? && !value.Obj?
  }

  const MEDIA_KINDS := {"input_image", "input_file", "image_url"}
  const LOCATOR_KEYS := {"image_url", "file_data", "file_id", "file_url", "asset_id"}

  /** A member of the object itself names media: a media type, or a non-empty locator string. */
  predicate NamesMedia(fields: map<string, Json>) {
    || ("type" in fields && fields["type"].Str? && fields["type"].text in MEDIA_KINDS)
    || exists key :: key in LOCATOR_KEYS && key in fields && fields[key].Str? && fields[key].text != ""
  }

  /** `_contains_media_reference`: written twice in the code, once for the normalizer, once for the guard. */
  predicate ContainsMedia(value: Json)
    decreases value
  {
    match value
    case Str(s) => StartsAsMediaData(s)
    case List(items) => exists i :: 0 <= i < |items| && ContainsMedia(items[i])
    case Obj(fields) => NamesMedia(fields) || exists key :: key in fields && ContainsMedia(fields[key])
    case _ => false
  }
}
