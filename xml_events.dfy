/**
 * The XML event reader the codecs consume: a sequence of already-parsed events and a cursor
 * into it. The parser that produces the events is not part of this model.
 */
module XmlReader {
  import opened Wrappers

  datatype Attribute = Attribute(name: string, value: string)

  /** An event as the reader delivers it. CDATA sections arrive as `Characters`. */
  datatype ReadEvent =
    | StartDocument
    | EndDocument
    | StartElement(name: string, attributes: seq<Attribute>)
    | EndElement(name: string)
    | Characters(text: string)
    | Whitespace(text: string)
    | Comment(text: string)

  datatype DecodeError =
    | Message(text: string)
    | UnexpectedEof
    | UnexpectedEvent(expected: string, found: ReadEvent)
    | InvalidBase64

  /** The next event at `pos` and the cursor after reading it; at the end, nothing and the same cursor. */
  function NextAt(events: seq<ReadEvent>, pos: nat): (r: (Option<ReadEvent>, nat))
    requires pos <= |events|
    ensures r.1 <= |events|
    ensures r.0.Some? <==> pos < |events|
    ensures r.0.Some? ==> r.0.value == events[pos] && r.1 == pos + 1
    ensures r.0.None? ==> r.1 == pos
  {
    if pos < |events| then (Some(events[pos]), pos + 1) else (None, pos)
  }

  /** Reads one event, which must open an element called `name`; gives that element's attributes. */
  function ExpectStartAt(events: seq<ReadEvent>, pos: nat, name: string): (r: (Result<seq<Attribute>, DecodeError>, nat))
    requires pos <= |events|
    ensures r.1 <= |events|
    ensures r.0.Ok? <==> pos < |events| && events[pos].StartElement? && events[pos].name == name
    ensures r.0.Ok? ==> r.0.value == events[pos].attributes && r.1 == pos + 1
    ensures pos == |events| ==> r.0 == Err(UnexpectedEof)
  {
    var (next, after) := NextAt(events, pos);
    match next
    case None => (Err(UnexpectedEof), after)
    case Some(e) =>
      if e.StartElement? && e.name == name then (Ok(e.attributes), after)
      else (Err(UnexpectedEvent("StartElement " + name, e)), after)
  }

  /** Reads one event, which must close an element called `name`. */
  function ExpectEndAt(events: seq<ReadEvent>, pos: nat, name: string): (r: (Result<(), DecodeError>, nat))
    requires pos <= |events|
    ensures r.1 <= |events|
    ensures r.0.Ok? <==> pos < |events| && events[pos] == EndElement(name)
    ensures r.0.Ok? ==> r.1 == pos + 1
    ensures pos == |events| ==> r.0 == Err(UnexpectedEof)
  {
    var (next, after) := NextAt(events, pos);
    match next
    case None => (Err(UnexpectedEof), after)
    case Some(e) =>
      if e == EndElement(name) then (Ok(()), after)
      else (Err(UnexpectedEvent("EndElement " + name, e)), after)
  }

  /** A reader over a fixed event sequence; `position` is the number of events consumed. */
  class EventReader {
    const events: seq<ReadEvent>
    var position: nat

    ghost predicate Valid()
      reads this
    {
      position <= |events|
    }

    constructor (events: seq<ReadEvent>)
      ensures Valid() && this.events == events && position == 0
    {
      this.events := events;
      position := 0;
    }

    method Next() returns (e: Option<ReadEvent>)
      requires Valid()
      modifies this
      ensures Valid()
      ensures (e, position) == NextAt(events, old(position))
    {
      if position < |events| {
        e := Some(events[position]);
        position := position + 1;
      } else {
        e := None;
      }
    }

    method ExpectStartWithName(name: string) returns (r: Result<seq<Attribute>, DecodeError>)
      requires Valid()
      modifies this
      ensures Valid()
      ensures (r, position) == ExpectStartAt(events, old(position), name)
    {
      var next := Next();
      match next
      case None =>
        r := Err(UnexpectedEof);
      case Some(e) =>
        if e.StartElement? && e.name == name {
          r := Ok(e.attributes);
        } else {
          r := Err(UnexpectedEvent("StartElement " + name, e));
        }
    }

    method ExpectEndWithName(name: string) returns (r: Result<(), DecodeError>)
      requires Valid()
      modifies this
      ensures Valid()
      ensures (r, position) == ExpectEndAt(events, old(position), name)
    {
      var next := Next();
      match next
      case None =>
        r := Err(UnexpectedEof);
      case Some(e) =>
        if e == EndElement(name) {
          r := Ok(());
        } else {
          r := Err(UnexpectedEvent("EndElement " + name, e));
        }
    }
  }
}

/**
 * The XML event writer the codecs produce into. Besides the events written, the model keeps
 * the stack of open elements and the events a reader of the produced text will see.
 */
module XmlWriter {
  import opened Wrappers
  import XmlReader

  /** An event as a codec writes it. Closing an element names no element: the innermost open one closes. */
  datatype WriteEvent =
    | StartElement(name: string, attributes: seq<XmlReader.Attribute>)
    | CData(text: string)
    | EndElement

  datatype EncodeError = NoElementToClose

  /**
   * Writing `e` with the elements `open` still open: the stack afterwards and the event a
   * reader of the output sees for `e`. Closing with nothing open is an error.
   */
  function Step(open: seq<string>, e: WriteEvent): (r: Result<(seq<string>, XmlReader.ReadEvent), EncodeError>)
    ensures r.Err? <==> e.EndElement? && open == []
    ensures r.Ok? && e.StartElement? ==> r.value.0 == open + [e.name]
    ensures r.Ok? && e.EndElement? ==> open == r.value.0 + [open[|open| - 1]]
  {
    match e
    case StartElement(name, attributes) => Ok((open + [name], XmlReader.StartElement(name, attributes)))
    case CData(text) => Ok((open, XmlReader.Characters(text)))
    case EndElement =>
      if open == [] then Err(NoElementToClose)
      else Ok((open[..|open| - 1], XmlReader.EndElement(open[|open| - 1])))
  }

  class EventWriter {
    /** The events written so far, in order. */
    var written: seq<WriteEvent>
    /** Names of the elements opened and not yet closed, innermost last. */
    var open: seq<string>
    /** What a reader of the output sees, in order. */
    var document: seq<XmlReader.ReadEvent>

    constructor ()
      ensures written == [] && open == [] && document == []
    {
      written, open, document := [], [], [];
    }

    /** Writes one event; on failure nothing changes. */
    method Write(e: WriteEvent) returns (r: Result<(), EncodeError>)
      modifies this
      ensures Step(old(open), e).Err? ==> r == Err(Step(old(open), e).error) && unchanged(this)
      ensures Step(old(open), e).Ok? ==>
        && r == Ok(())
        && written == old(written) + [e]
        && open == Step(old(open), e).value.0
        && document == old(document) + [Step(old(open), e).value.1]
    {
      var step := Step(open, e);
      if step.Err? {
        r := Err(step.error);
      } else {
        written := written + [e];
        open := step.value.0;
        document := document + [step.value.1];
        r := Ok(());
      }
    }
  }
}
