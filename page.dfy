/**
 * The record model and the abstract document the pipeline works on.
 *
 * A bibliography entry is a value. The document (`dom`) and the shared
 * context (`data`) are objects that every stage updates in place; each has a
 * `State()` snapshot that opaque stages read and produce.
 */
module Page {
  import opened Wrappers

  /**
   * One bibliographic record. `author` holds one or more names joined by
   * " and ", each "Last, First Middle". An optional field is `None` when the
   * record has no such key.
   */
  datatype Entry = Entry(
    author: string,
    year: string,
    title: string,
    journal: Option<string>,
    booktitle: Option<string>,
    volume: Option<string>,
    issue: Option<string>,
    number: Option<string>,
    pages: Option<string>)

  /** An element as far as the bibliography needs one: its tag, text and children. */
  datatype Node = Element(tag: string, text: string, children: seq<Node>)

  /** A `dt-cite` marker: its `key` attribute (`None` when absent) and its content. */
  datatype CiteTag = CiteTag(key: Option<string>, content: string)

  /** A snapshot of the document. */
  datatype DomState = DomState(
    citeTags: seq<CiteTag>,
    bibliographies: seq<seq<Node>>,
    scriptSrcs: seq<string>,
    bodyAttributes: map<string, string>,
    other: seq<Node>)

  /** A snapshot of the shared context. */
  datatype DataState = DataState(citations: seq<string>, bibliography: map<string, Entry>)

  /** `data.bibliography[key]`: the entry, or `undefined` (`None`) for a key with no record. */
  function Lookup(bibliography: map<string, Entry>, key: string): Option<Entry> {
    if key in bibliography then Some(bibliography[key]) else None
  }

  class Dom {
    /** Every `dt-cite` element, in document order. */
    var citeTags: seq<CiteTag>
    /** The children of every `dt-bibliography` element, in document order. */
    var bibliographies: seq<seq<Node>>
    /** The `src` of every `script` element, in document order. */
    var scriptSrcs: seq<string>
    /** The attributes of `dom.body`. */
    var bodyAttributes: map<string, string>
    /** The rest of the tree, which only the opaque stages touch. */
    var other: seq<Node>

    constructor (s: DomState)
      ensures State() == s
    {
      citeTags, bibliographies, scriptSrcs := s.citeTags, s.bibliographies, s.scriptSrcs;
      bodyAttributes, other := s.bodyAttributes, s.other;
    }

    function State(): DomState
      reads this
    {
      DomState(citeTags, bibliographies, scriptSrcs, bodyAttributes, other)
    }

    /** Overwrites every part of the document with `s`. */
    method Load(s: DomState)
      modifies this
      ensures State() == s
    {
      citeTags, bibliographies, scriptSrcs := s.citeTags, s.bibliographies, s.scriptSrcs;
      bodyAttributes, other := s.bodyAttributes, s.other;
    }

    /** `dom.body.setAttribute(name, value)`. */
    method SetBodyAttribute(name: string, value: string)
      modifies this
      ensures State() == old(State()).(bodyAttributes := old(bodyAttributes)[name := value])
    {
      bodyAttributes := bodyAttributes[name := value];
    }
  }

  class Data {
    /** Citation keys in order of first appearance: the numbering authority. */
    var citations: seq<string>
    var bibliography: map<string, Entry>

    constructor (s: DataState)
      ensures State() == s
    {
      citations, bibliography := s.citations, s.bibliography;
    }

    function State(): DataState
      reads this
    {
      DataState(citations, bibliography)
    }

    method Load(s: DataState)
      modifies this
      ensures State() == s
    {
      citations, bibliography := s.citations, s.bibliography;
    }
  }
}
