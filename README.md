# rbx-dom property and instance model in Dafny

This project models three pieces of rbx-dom, the Rust library that reads and writes Roblox
instance trees.

- **`InstanceBuilder`** (`instance.dfy`) is the detached staging node of an instance tree. It
  holds a referent, a name, a class name, a property map and an ordered list of child builders.
  - The consuming ("fluent") mutators `with_name`, `with_property`, `with_properties`,
    `with_child` and `with_children` are functions on an `InstanceBuilder` datatype.
  - The `&mut self` mutators `set_name`, `add_property`, `add_properties`, `add_child` and
    `add_children` are methods of the class `MutableBuilder`, which updates its fields in place.
  - `FluentAgreesWithInPlace` proves that the two forms give the same builder.
  - `MutatorsPreserve` proves what every sequence of mutators keeps: the referent, the class,
    the existing children as a prefix, and every property key.
  - `DomInstance`, the node once it is in a tree, is a datatype. The invariants its accessors
    document make up the predicate `Consistent`.
- **The BinaryString XML codec** (`binary_string.dfy`) writes a byte blob as a
  `<BinaryString name="...">` element whose text is the blob's base64 encoding.
  - XML is a sequence of events. An `EventReader` class reads it with a cursor and an
    `EventWriter` class (`xml_events.dfy`) writes it.
  - Base64 (`base64.dfy`) follows section 4 of RFC 4648. Its decoder is strict, so it is a
    bijection with the encoder.
  - The lemmas cover:
    - the round trip, including text wrapped at 72 columns and '\n' inserted anywhere;
    - the empty element;
    - each wrong event shape;
    - invalid base64.
- **Fonts** (`font.dfy`) covers `FontWeight` with its discriminants 100 to 900, the two
  `FontStyle`s, and the `FontFace` record with its constructor.

Shared files: `wrappers.dfy` holds `Option` and `Result`, `bytes.dfy` the byte type, and
`types.dfy` holds `Ref` and the property value union `Variant`.

## Model

| member | source | states |
|---|---|---|
| Fonts.Discriminant | rbx_types/src/font.rs:5-13 | the explicit discriminant of each weight; its own contract says it is a multiple of 100 between 100 and 900, and `DiscriminantsAreHundreds` fixes which weight has which |
| Fonts.DiscriminantsAreHundreds | rbx_types/src/font.rs:4-14 | the i-th declared weight has discriminant 100·(i+1), so the values are 100, 200, …, 900 |
| Fonts.DiscriminantsIncrease | rbx_types/src/font.rs:4-14 | discriminants strictly increase with declaration order, and equal discriminants mean equal weights |
| Fonts.DiscriminantInjective | rbx_types/src/font.rs:4-14 | distinct weights have distinct discriminants |
| Fonts.WeightsListsEveryWeightOnce | rbx_types/src/font.rs:4-14 | there are exactly the nine declared weights, each listed once |
| Fonts.TwoStyles | rbx_types/src/font.rs:16-20 | a style is Normal or Italic, and the two differ |
| Fonts.FontFaceEquality | rbx_types/src/font.rs:22-28 | two faces are equal exactly when family, weight, style and cached face id are all equal |
| Fonts.New | rbx_types/src/font.rs:30-34 | each argument is stored unchanged in the field of the same name |
| Instance.New | rbx_dom_weak/src/instance.rs:46-59 | a new builder has the given non-null referent, name equal to the class name, no properties and no children |
| Instance.MutableBuilder.constructor | rbx_dom_weak/src/instance.rs:46-59 | the in-place builder starts as the value `New` describes |
| Instance.MutableBuilder.Referent | rbx_dom_weak/src/instance.rs:61-64 | returns the referent fixed at construction (a `const` field that no method can change) |
| Instance.WithName | rbx_dom_weak/src/instance.rs:66-72 | only the name changes; referent, class, properties and children are kept |
| Instance.MutableBuilder.SetName | rbx_dom_weak/src/instance.rs:74-77 | the new state is the fluent `WithName` of the old state |
| Instance.WithProperty | rbx_dom_weak/src/instance.rs:79-87 | the key set gains `key`, `key` maps to the new value (overwriting), every other key keeps its value, and no other field changes |
| Instance.MutableBuilder.AddProperty | rbx_dom_weak/src/instance.rs:89-92 | the new state is the fluent `WithProperty` of the old state |
| Instance.WithProperties | rbx_dom_weak/src/instance.rs:94-106 | the loop leaves the properties equal to the batch inserted in order (`Inserted`) and no other field changed |
| Instance.MutableBuilder.AddProperties | rbx_dom_weak/src/instance.rs:108-118 | the in-place loop leaves the same state as inserting the batch in order |
| Instance.Inserted | rbx_dom_weak/src/instance.rs:101-103 | the map after the insertion loop; its own contract says that no old key is lost and that every key of the batch is present, and `InsertedLastWins` fixes every value |
| Instance.InsertedIsEachProperty | rbx_dom_weak/src/instance.rs:101-103 | inserting a batch equals calling `WithProperty` on each pair in turn, first pair first |
| Instance.InsertedLastWins | rbx_dom_weak/src/instance.rs:101-103 | after a batch, a key is present iff it was before or is in the batch; the last pair with that key wins; keys outside the batch keep their old values |
| Instance.InsertedOrderFree | rbx_dom_weak/src/instance.rs:101-103 | a batch without repeated keys gives the same map in any order |
| Instance.WithChild | rbx_dom_weak/src/instance.rs:120-124 | exactly `child` is appended after the old children; no other field changes |
| Instance.MutableBuilder.AddChild | rbx_dom_weak/src/instance.rs:126-129 | the new state is the fluent `WithChild` of the old state |
| Instance.WithChildren | rbx_dom_weak/src/instance.rs:131-140 | the children are the old children followed by the given ones in order; no other field changes |
| Instance.MutableBuilder.AddChildren | rbx_dom_weak/src/instance.rs:142-150 | the new state is the fluent `WithChildren` of the old state |
| Instance.WithChildrenIsEachChild | rbx_dom_weak/src/instance.rs:131-140 | appending a batch of children is appending each one in turn, in the given order |
| Instance.MutatorsPreserve | rbx_dom_weak/src/instance.rs:45-150 | after any sequence of mutators, the referent and class are unchanged, the old children are a prefix of the new ones, and no property key is lost |
| Instance.FluentAgreesWithInPlace | rbx_dom_weak/src/instance.rs:67-150 | for each mutator, the consuming form and the in-place form applied to the same builder give the same builder |
| Instance.DomInstance.Referent | rbx_dom_weak/src/instance.rs:174-178 | the referent of a consistent instance is never null |
| Instance.DomInstance.Children | rbx_dom_weak/src/instance.rs:180-186 | every child referent is non-null and names an instance in the same arena |
| Instance.DomInstance.Parent | rbx_dom_weak/src/instance.rs:188-194 | the parent is null or names an instance in the same arena |
| XmlWriter.Step | rbx_xml/src/types/binary_string.rs:15-17 | writing fails exactly when closing with no element open; a start element pushes its name, and a close pops the innermost name |
| XmlWriter.EventWriter.constructor | rbx_xml/src/types/binary_string.rs:64 | a new writer has written nothing and has no element open |
| XmlWriter.EventWriter.Write | rbx_xml/src/types/binary_string.rs:15-17 | a successful write appends the event and updates the open stack as `Step` says; a failed write changes nothing |
| XmlReader.EventReader.constructor | rbx_xml/src/types/binary_string.rs:69 | a new reader is at the start of its events |
| XmlReader.NextAt | rbx_xml/src/types/binary_string.rs:25 | yields an event exactly when one is left: the event at the cursor, with the cursor advanced by one; at the end, nothing and the cursor unchanged |
| XmlReader.EventReader.Next | rbx_xml/src/types/binary_string.rs:25 | the event returned and the cursor afterwards are those of `NextAt` |
| XmlReader.ExpectStartAt | rbx_xml/src/types/binary_string.rs:23 | succeeds exactly when the next event opens an element of the given name, returning its attributes; end of input is `UnexpectedEof` |
| XmlReader.EventReader.ExpectStartWithName | rbx_xml/src/types/binary_string.rs:23 | the result and the cursor afterwards are those of `ExpectStartAt` |
| XmlReader.ExpectEndAt | rbx_xml/src/types/binary_string.rs:39 | succeeds exactly when the next event closes an element of the given name; end of input is `UnexpectedEof` |
| XmlReader.EventReader.ExpectEndWithName | rbx_xml/src/types/binary_string.rs:39 | the result and the cursor afterwards are those of `ExpectEndAt` |
| BinaryString.SerializeBinaryString | rbx_xml/src/types/binary_string.rs:10-20 | succeeds and writes exactly three events: a `BinaryString` start element with `name`, the base64 text, and the matching close; the open stack is unchanged |
| BinaryString.DeserializeAt | rbx_xml/src/types/binary_string.rs:22-50 | a successful read gives a BinaryString value and consumes two or three events; the cursor stays within the input |
| BinaryString.DeserializeBinaryString | rbx_xml/src/types/binary_string.rs:22-50 | the result and the reader's cursor afterwards are those of `DeserializeAt` |
| BinaryString.StripNewlines | rbx_xml/src/types/binary_string.rs:43 | the result holds no '\n' and is no longer than the input |
| BinaryString.StripNewlinesKeepsOthers | rbx_xml/src/types/binary_string.rs:43 | only '\n' is removed: text without one is returned unchanged |
| BinaryString.StripNewlinesAppend | rbx_xml/src/types/binary_string.rs:43 | stripping commutes with concatenation |
| BinaryString.InsertedNewlineIsStripped | rbx_xml/src/types/binary_string.rs:41-43 | a '\n' inserted at any position is removed again |
| BinaryString.StripWrap | rbx_xml/src/types/binary_string.rs:41-43 | text wrapped at any width, with the breaks then stripped, is the original text |
| BinaryString.EncodeHasNoNewline | rbx_xml/src/types/binary_string.rs:16 | the written base64 text holds no '\n', so stripping leaves it as it is |
| BinaryString.DeserializeText | rbx_xml/src/types/binary_string.rs:39-49 | an element with text reads as the base64 decoding of the text without its '\n's, or `InvalidBase64`, consuming three events |
| BinaryString.SerializeThenDeserialize | rbx_xml/src/types/binary_string.rs:10-50 | reading the serializer's output gives back the same bytes, whatever events surround it, and consumes exactly three events |
| BinaryString.DeserializeWithNewlines | rbx_xml/src/types/binary_string.rs:41-45 | any text that strips to the encoding of `value` reads as `value` |
| BinaryString.DeserializeWrapped | rbx_xml/src/types/binary_string.rs:41-45 | the encoding wrapped at column 72 reads back as the original bytes |
| BinaryString.DeserializeEmptyElement | rbx_xml/src/types/binary_string.rs:27-31 | a start followed at once by the matching close is the empty blob and consumes two events |
| BinaryString.DeserializeRequiresStart | rbx_xml/src/types/binary_string.rs:23 | without a `BinaryString` start element at the cursor, the result is an error |
| BinaryString.DeserializeRejectsAfterStart | rbx_xml/src/types/binary_string.rs:25-36 | after the start: end of input is "Unexpected EOF", another closing tag is "Unexpected closing tag", and any event other than text or a close is "Unexpected stuff in BinaryString" |
| BinaryString.DeserializeRequiresClose | rbx_xml/src/types/binary_string.rs:39 | after the text: end of input is `UnexpectedEof`, and any event other than the matching close is `UnexpectedEvent` |
| BinaryString.DeserializeRejectsInvalidBase64 | rbx_xml/src/types/binary_string.rs:45 | text that is not base64 after stripping is `InvalidBase64`, never a shortened value |
| BinaryString.DeserializeOkIff | rbx_xml/src/types/binary_string.rs:22-50 | reading gives `bytes` if and only if the element is closed at once and `bytes` is empty, or its stripped text is the base64 encoding of `bytes` followed by the matching close |
| BinaryString.RoundTrip | rbx_xml/src/types/binary_string.rs:62-75 | serializing into a fresh writer, skipping the start of the document and deserializing gives back the value |
| BinaryString.RoundTripTestValue | rbx_xml/src/types/binary_string.rs:56-76 | the test's blob (with 0x00, 0x01, 0x7F and '\n') round-trips under the name "foo" |
| Base64.ValueOf | rbx_xml/src/types/binary_string.rs:45 | a character that decodes is the alphabet character of its value, and the pad character never decodes as a value |
| Base64.ValueOfCharOf | rbx_xml/src/types/binary_string.rs:16 | every 6-bit value reads back from its alphabet character |
| Base64.Encode | rbx_xml/src/types/binary_string.rs:16 | the base64 text of the bytes; its own contract says only the empty blob encodes to the empty text, and `DecodeIffEncode`, `EncodeLength` and `EncodeUsesAlphabet` fix its meaning |
| Base64.Decode | rbx_xml/src/types/binary_string.rs:45 | the strict RFC 4648 decoder; its own contract says only the empty text decodes to no bytes, and `DecodeIffEncode` makes it exactly the inverse of `Encode` |
| Base64.DecodeEncode | rbx_xml/src/types/binary_string.rs:45 | decoding the encoding of any byte string, including the empty one, gives it back |
| Base64.EncodeDecode | rbx_xml/src/types/binary_string.rs:45 | a text that decodes is the encoding of what it decodes to |
| Base64.DecodeIffEncode | rbx_xml/src/types/binary_string.rs:45 | `Decode(s) == Some(b)` if and only if `Encode(b) == s` |
| Base64.EncodeLength | rbx_xml/src/types/binary_string.rs:16 | the encoding has four characters per started group of three bytes |
| Base64.EncodeUsesAlphabet | rbx_xml/src/types/binary_string.rs:16 | every character of an encoding is in the alphabet or is the pad |
| Base64.ForeignCharacterRejected | rbx_xml/src/types/binary_string.rs:45 | a text with a character that is neither in the alphabet nor the pad does not decode |

## Left out

- Writer I/O errors are left out: the output stream's write failures (`EncodeError` from I/O) cannot occur in the model. The only writer error modelled is closing with no element open.
- XML text is left out. The model starts from parsed events, so parsing, escaping and parse errors (the inner `?` at binary_string.rs:25) are not modelled.
- The XML reader and writer libraries are not part of this model. `expect_start_with_name` and `expect_end_with_name` are taken to consume exactly one event, which must open or close an element of the given name. Their internals are not modelled.
- CDATA is read back as text. The writer writes the payload as CDATA, and the model's reader delivers it as a `Characters` event. The library's merging of adjacent text and CDATA is not modelled.
- Attributes are never checked on read: `deserialize_binary_string` ignores the `name` attribute, and so does the model.
- Base64.Decode: the decoder is the strict RFC 4648 decoder. It requires padding and rejects non-zero pad bits. The external `base64` crate's exact leniency is not modelled. Every text the serializer writes is accepted by both.
- BinaryString.StripNewlines removes only '\n', as binary_string.rs:43 does; '\r', spaces and tabs are kept, so text containing them fails to decode.
- Instance.New: the referent is a parameter required to be non-null. The source draws a random 128-bit referent (`Ref::new`), whose uniqueness is only statistical.
- Instance.DomInstance.Referent, Instance.DomInstance.Children, Instance.DomInstance.Parent: the tree (`WeakDom`) is not part of this model. Its instances are passed as a ghost `Arena` map, and the accessors' documented promises are preconditions of consistency with it.
- WeakDom graph operations (insertion, moves, destruction, traversal) are not part of this model.
- `HashMap` iteration order and `SmallString` are not modelled. Properties are a `map<string, Variant>` and names are `string`.
- Generic `Into` conversions of keys and values are not modelled. Arguments are already `string` and `Variant`.
- `Variant` lists only the value kinds these files touch. `Color3` and the other floating-point kinds are left out.
- Font `Content` is modelled as a plain string.
- rbx_reflector's API dump reader is left out. It runs Roblox Studio as a process, reads files and calls `serde_json`, and its types carry no hand-written logic.
- The round-trip test's `println!` and logger setup are output only and are left out.
