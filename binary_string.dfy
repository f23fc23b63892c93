/**
 * The BinaryString property codec of the XML format: a byte blob written as an element
 * `<BinaryString name="...">` whose text is the base64 encoding of the bytes.
 */
module BinaryString {
  import opened Wrappers
  import opened Bytes
  import Base64
  import opened RbxTypes
  import opened XmlReader
  import XmlWriter

  /** The tag of the element. */
  const Tag: string := "BinaryString"

  /** The column at which Roblox wraps the base64 text of a BinaryString. */
  const WrapColumn: nat := 72

  /** The text with every '\n' removed and every other character kept, in order. */
  function StripNewlines(s: string): (r: string)
    ensures '\n' !in r
    ensures |r| <= |s|
    decreases |s|
  {
    if s == [] then []
    else if s[0] == '\n' then StripNewlines(s[1..])
    else [s[0]] + StripNewlines(s[1..])
  }

  /** Stripping works piece by piece: it commutes with concatenation. */
  lemma {:induction false} StripNewlinesAppend(s: string, t: string)
    ensures StripNewlines(s + t) == StripNewlines(s) + StripNewlines(t)
    decreases |s|
  {
    if s == [] {
      assert s + t == t;
    } else {
      assert (s + t)[0] == s[0];
      assert (s + t)[1..] == s[1..] + t;
      StripNewlinesAppend(s[1..], t);
      if s[0] != '\n' {
        assert [s[0]] + (StripNewlines(s[1..]) + StripNewlines(t))
            == ([s[0]] + StripNewlines(s[1..])) + StripNewlines(t);
      }
    }
  }

  /** Only '\n' is removed: a text without one is left as it is. */
  lemma {:induction false} StripNewlinesKeepsOthers(s: string)
    requires '\n' !in s
    ensures StripNewlines(s) == s
    decreases |s|
  {
    if s != [] {
      StripNewlinesKeepsOthers(s[1..]);
    }
  }

  /** A '\n' inserted anywhere is removed again. */
  lemma InsertedNewlineIsStripped(before: string, after: string)
    ensures StripNewlines(before + "\n" + after) == StripNewlines(before + after)
  {
    assert StripNewlines("\n") == [];
    StripNewlinesAppend(before + "\n", after);
    StripNewlinesAppend(before, "\n");
    StripNewlinesAppend(before, after);
  }

  /** The text broken into lines of `width` characters, as authoring tools write it. */
  function Wrap(s: string, width: nat): (r: string)
    requires width > 0
    decreases |s|
  {
    if |s| <= width then s else s[..width] + "\n" + Wrap(s[width..], width)
  }

  /** Removing the line breaks of wrapped text gives the text back. */
  lemma {:induction false} StripWrap(s: string, width: nat)
    requires width > 0 && '\n' !in s
    ensures StripNewlines(Wrap(s, width)) == s
    decreases |s|
  {
    if |s| <= width {
      StripNewlinesKeepsOthers(s);
    } else {
      StripWrap(s[width..], width);
      StripNewlinesAppend(s[..width] + "\n", Wrap(s[width..], width));
      StripNewlinesAppend(s[..width], "\n");
      StripNewlinesKeepsOthers(s[..width]);
      assert s[..width] + s[width..] == s;
    }
  }

  /** The events the serializer writes for property `name` holding `value`. */
  function SerializedEvents(name: string, value: seq<byte>): seq<XmlWriter.WriteEvent> {
    [ XmlWriter.StartElement(Tag, [Attribute("name", name)]),
      XmlWriter.CData(Base64.Encode(value)),
      XmlWriter.EndElement ]
  }

  /** What a reader of the serializer's output sees. */
  function SerializedDocument(name: string, value: seq<byte>): seq<ReadEvent> {
    [StartElement(Tag, [Attribute("name", name)]), Characters(Base64.Encode(value)), EndElement(Tag)]
  }

  /**
   * Writes the three events of one property. Writing them cannot fail: the element it closes
   * is the one it has just opened.
   */
  method SerializeBinaryString(writer: XmlWriter.EventWriter, name: string, value: seq<byte>)
    returns (r: Result<(), XmlWriter.EncodeError>)
    modifies writer
    ensures r == Ok(())
    ensures writer.written == old(writer.written) + SerializedEvents(name, value)
    ensures writer.document == old(writer.document) + SerializedDocument(name, value)
    ensures writer.open == old(writer.open)
  {
    // Each write could propagate an error; none does.
    var ok := writer.Write(XmlWriter.StartElement(Tag, [Attribute("name", name)]));
    assert ok == Ok(());
    ok := writer.Write(XmlWriter.CData(Base64.Encode(value)));
    assert ok == Ok(());
    ok := writer.Write(XmlWriter.EndElement);
    assert ok == Ok(());
    r := Ok(());
  }

  /**
   * Reading one BinaryString element at `pos`: the decoded value and the cursor afterwards.
   * An element closed at once is the empty blob; otherwise its text, with '\n' removed,
   * must be base64 and the element must close right after it.
   */
  function DeserializeAt(events: seq<ReadEvent>, pos: nat): (r: (Result<Variant, DecodeError>, nat))
    requires pos <= |events|
    ensures r.1 <= |events|
    ensures r.0.Ok? ==> r.0.value.BinaryString? && (r.1 == pos + 2 || r.1 == pos + 3)
  {
    var (start, p1) := ExpectStartAt(events, pos, Tag);
    if start.Err? then (Err(start.error), p1)
    else
      var (next, p2) := NextAt(events, p1);
      match next
      case None => (Err(Message("Unexpected EOF")), p2)
      case Some(Characters(contents)) =>
        var (end, p3) := ExpectEndAt(events, p2, Tag);
        if end.Err? then (Err(end.error), p3)
        else
          var decoded := Base64.Decode(StripNewlines(contents));
          if decoded.None? then (Err(InvalidBase64), p3)
          else (Ok(BinaryString(decoded.value)), p3)
      case Some(EndElement(closing)) =>
        if closing == Tag then (Ok(BinaryString([])), p2)
        else (Err(Message("Unexpected closing tag")), p2)
      case Some(_) => (Err(Message("Unexpected stuff in BinaryString")), p2)
  }

  method DeserializeBinaryString(reader: EventReader) returns (r: Result<Variant, DecodeError>)
    requires reader.Valid()
    modifies reader
    ensures reader.Valid()
    ensures (r, reader.position) == DeserializeAt(reader.events, old(reader.position))
  {
    var start := reader.ExpectStartWithName(Tag);
    if start.Err? {
      return Err(start.error);
    }
    var next := reader.Next();
    var contents: string;
    match next {
      case None =>
        return Err(Message("Unexpected EOF"));
      case Some(Characters(text)) =>
        contents := text;
      case Some(EndElement(closing)) =>
        if closing == Tag {
          return Ok(BinaryString([]));
        } else {
          return Err(Message("Unexpected closing tag"));
        }
      case Some(_) =>
        return Err(Message("Unexpected stuff in BinaryString"));
    }
    var end := reader.ExpectEndWithName(Tag);
    if end.Err? {
      return Err(end.error);
    }
    var stripped := StripNewlines(contents);
    var bytes := Base64.Decode(stripped);
    if bytes.None? {
      return Err(InvalidBase64);
    }
    return Ok(BinaryString(bytes.value));
  }

  /** Base64 text never holds a '\n', so stripping leaves it as it is. */
  lemma EncodeHasNoNewline(value: seq<byte>)
    ensures '\n' !in Base64.Encode(value)
    ensures StripNewlines(Base64.Encode(value)) == Base64.Encode(value)
  {
    var text := Base64.Encode(value);
    forall i | 0 <= i < |text|
      ensures text[i] != '\n'
    {
      Base64.EncodeUsesAlphabet(value, i);
    }
    StripNewlinesKeepsOthers(text);
  }

  /** An element with text: the value is the base64 decoding of the text without its '\n's. */
  lemma DeserializeText(attributes: seq<Attribute>, text: string, before: seq<ReadEvent>, after: seq<ReadEvent>)
    ensures
      var events := before + [StartElement(Tag, attributes), Characters(text), EndElement(Tag)] + after;
      var decoded := Base64.Decode(StripNewlines(text));
      DeserializeAt(events, |before|) ==
        (if decoded.Some? then Ok(BinaryString(decoded.value)) else Err(InvalidBase64), |before| + 3)
  {
    var events := before + [StartElement(Tag, attributes), Characters(text), EndElement(Tag)] + after;
    var n := |before|;
    assert events[n] == StartElement(Tag, attributes);
    assert events[n + 1] == Characters(text);
    assert events[n + 2] == EndElement(Tag);
  }

  /**
   * Round trip: reading back the serializer's output gives the same bytes, whatever surrounds
   * it, and consumes exactly the three events it wrote.
   */
  lemma SerializeThenDeserialize(name: string, value: seq<byte>, before: seq<ReadEvent>, after: seq<ReadEvent>)
    ensures DeserializeAt(before + SerializedDocument(name, value) + after, |before|) ==
      (Ok(BinaryString(value)), |before| + 3)
  {
    EncodeHasNoNewline(value);
    Base64.DecodeEncode(value);
    DeserializeText([Attribute("name", name)], Base64.Encode(value), before, after);
  }

  /** Line breaks anywhere in the text do not change the bytes read. */
  lemma DeserializeWithNewlines(
    attributes: seq<Attribute>, text: string, value: seq<byte>, before: seq<ReadEvent>, after: seq<ReadEvent>)
    requires StripNewlines(text) == Base64.Encode(value)
    ensures
      var events := before + [StartElement(Tag, attributes), Characters(text), EndElement(Tag)] + after;
      DeserializeAt(events, |before|) == (Ok(BinaryString(value)), |before| + 3)
  {
    Base64.DecodeEncode(value);
    DeserializeText(attributes, text, before, after);
  }

  /** Text wrapped at 72 columns, as Roblox writes it, reads back as the same bytes. */
  lemma DeserializeWrapped(name: string, value: seq<byte>, before: seq<ReadEvent>, after: seq<ReadEvent>)
    ensures
      var text := Wrap(Base64.Encode(value), WrapColumn);
      var events := before + [StartElement(Tag, [Attribute("name", name)]), Characters(text), EndElement(Tag)] + after;
      DeserializeAt(events, |before|) == (Ok(BinaryString(value)), |before| + 3)
  {
    EncodeHasNoNewline(value);
    StripWrap(Base64.Encode(value), WrapColumn);
    DeserializeWithNewlines([Attribute("name", name)], Wrap(Base64.Encode(value), WrapColumn), value, before, after);
  }

  /** An element closed right after it opens is the empty blob, and its two events are consumed. */
  lemma DeserializeEmptyElement(attributes: seq<Attribute>, before: seq<ReadEvent>, after: seq<ReadEvent>)
    ensures
      var events := before + [StartElement(Tag, attributes), EndElement(Tag)] + after;
      DeserializeAt(events, |before|) == (Ok(BinaryString([])), |before| + 2)
  {
    var events := before + [StartElement(Tag, attributes), EndElement(Tag)] + after;
    assert events[|before|] == StartElement(Tag, attributes);
    assert events[|before| + 1] == EndElement(Tag);
  }

  /** Anything but a `BinaryString` start element where the value should begin is an error. */
  lemma DeserializeRequiresStart(events: seq<ReadEvent>, pos: nat)
    requires pos <= |events|
    requires pos == |events| || !(events[pos].StartElement? && events[pos].name == Tag)
    ensures DeserializeAt(events, pos).0.Err?
  {
  }

  /** After the start element: end of input, another closing tag, or any other event is an error. */
  lemma DeserializeRejectsAfterStart(events: seq<ReadEvent>, pos: nat)
    requires pos < |events| && events[pos].StartElement? && events[pos].name == Tag
    ensures pos + 1 == |events| ==>
      DeserializeAt(events, pos) == (Err(Message("Unexpected EOF")), pos + 1)
    ensures pos + 1 < |events| && events[pos + 1].EndElement? && events[pos + 1].name != Tag ==>
      DeserializeAt(events, pos) == (Err(Message("Unexpected closing tag")), pos + 2)
    ensures pos + 1 < |events| && !events[pos + 1].EndElement? && !events[pos + 1].Characters? ==>
      DeserializeAt(events, pos) == (Err(Message("Unexpected stuff in BinaryString")), pos + 2)
  {
  }

  /** After the text, the element must close at once; otherwise reading fails. */
  lemma DeserializeRequiresClose(events: seq<ReadEvent>, pos: nat)
    requires pos + 1 < |events| && events[pos].StartElement? && events[pos].name == Tag
    requires events[pos + 1].Characters?
    ensures pos + 2 == |events| ==> DeserializeAt(events, pos) == (Err(UnexpectedEof), pos + 2)
    ensures pos + 2 < |events| && events[pos + 2] != EndElement(Tag) ==>
      DeserializeAt(events, pos) == (Err(UnexpectedEvent("EndElement " + Tag, events[pos + 2])), pos + 3)
  {
  }

  /** Text that is not base64 once its '\n's are removed is an error, never a shortened value. */
  lemma DeserializeRejectsInvalidBase64(events: seq<ReadEvent>, pos: nat)
    requires pos + 2 < |events| && events[pos].StartElement? && events[pos].name == Tag
    requires events[pos + 1].Characters? && events[pos + 2] == EndElement(Tag)
    requires Base64.Decode(StripNewlines(events[pos + 1].text)).None?
    ensures DeserializeAt(events, pos) == (Err(InvalidBase64), pos + 3)
  {
  }

  /**
   * Exactly which inputs read as which blobs: an immediately closed element reads as the empty
   * blob, and an element with text reads as the bytes whose base64 encoding is that text
   * without its '\n's.
   */
  lemma DeserializeOkIff(events: seq<ReadEvent>, pos: nat, bytes: seq<byte>)
    requires pos <= |events|
    ensures DeserializeAt(events, pos).0 == Ok(BinaryString(bytes)) <==>
      && pos + 1 < |events|
      && events[pos].StartElement? && events[pos].name == Tag
      && ( || (events[pos + 1] == EndElement(Tag) && bytes == [])
           || (&& events[pos + 1].Characters?
               && pos + 2 < |events| && events[pos + 2] == EndElement(Tag)
               && Base64.Encode(bytes) == StripNewlines(events[pos + 1].text)))
  {
    if pos + 1 < |events| && events[pos + 1].Characters? {
      Base64.DecodeIffEncode(StripNewlines(events[pos + 1].text), bytes);
    }
  }

  /** The value of the round-trip test: bytes 0x00, 0x01, 0x7F and '\n' among ASCII text. */
  const TestValue: seq<byte> := [
    0x00, 0x01, 0x68, 0x65, 0x6C, 0x6C, 0x6F, 0x2C, 0x0A, 0x7F, 0x77, 0x6F, 0x72, 0x6C, 0x64, 0x2C,
    0x20, 0x66, 0x72, 0x6F, 0x6D, 0x20, 0x61, 0x20, 0x66, 0x61, 0x69, 0x72, 0x6C, 0x79, 0x20, 0x73,
    0x69, 0x7A, 0x61, 0x62, 0x6C, 0x65, 0x20, 0x62, 0x69, 0x6E, 0x61, 0x72, 0x79, 0x20, 0x73, 0x74,
    0x72, 0x69, 0x6E, 0x67, 0x20, 0x6C, 0x69, 0x74, 0x65, 0x72, 0x61, 0x6C, 0x2E, 0x0A
  ]

  /**
   * The round trip as the test runs it: serialize `value` as property `name` into a fresh
   * writer, read the output back, skip the start of the document, and deserialize.
   */
  method RoundTrip(name: string, value: seq<byte>) returns (r: Result<Variant, DecodeError>)
    ensures r == Ok(BinaryString(value))
  {
    var writer := new XmlWriter.EventWriter();
    var written := SerializeBinaryString(writer, name, value);
    var reader := new EventReader([StartDocument] + writer.document + [EndDocument]);
    var _ := reader.Next();
    SerializeThenDeserialize(name, value, [StartDocument], [EndDocument]);
    r := DeserializeBinaryString(reader);
  }

  /** The round-trip test on its own value and property name. */
  method RoundTripTestValue() returns (r: Result<Variant, DecodeError>)
    ensures r == Ok(BinaryString(TestValue))
  {
    r := RoundTrip("foo", TestValue);
  }
}
