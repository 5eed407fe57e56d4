/**
 * The citation component: three formatters over the shared context and the
 * renderer that rewrites `dt-cite` markers and fills the first
 * `dt-bibliography` placeholder.
 */
module Citation {
  import opened Wrappers
  import opened JsString
  import opened Page

  const AuthorSeparator: string := " and "
  const PartSeparator: string := ", "

  /** JavaScript truthiness of an optional string: `undefined` and `""` are falsy. */
  predicate Truthy(v: Option<string>) {
    v.Some? && v.value != ""
  }

  // ---------------------------------------------------------------------------
  // Short inline citation: "[1, ?]"
  // ---------------------------------------------------------------------------

  /** The number shown for one key: its 1-based first position in `citations`, or "?". */
  function CiteNumber(citations: seq<string>, bibliography: map<string, Entry>, key: string): (r: string)
    ensures key !in bibliography ==> r == "?"
    ensures key in bibliography && key !in citations ==> r == "0"
    ensures forall i :: 0 <= i < |citations| && citations[i] == key && key !in citations[..i] && key in bibliography
              ==> r == Decimal(i + 1)
    ensures r == "?" || AllDigits(r)
  {
    if key in bibliography then
      var n := IndexOf(citations, key) + 1;
      Decimal(n)
    else "?"
  }

  function CiteNumbers(citations: seq<string>, bibliography: map<string, Entry>, keys: seq<string>): seq<string> {
    seq(|keys|, i requires 0 <= i < |keys| => CiteNumber(citations, bibliography, keys[i]))
  }

  /**
   * `inline_cite_short(keys)`: the per-key numbers, joined by ", ", in brackets.
   * The bracketed text splits back into exactly one number per key, in order.
   */
  function InlineCiteShort(citations: seq<string>, bibliography: map<string, Entry>, keys: seq<string>): (r: string)
    ensures |r| >= 2 && r[0] == '[' && r[|r| - 1] == ']'
    ensures keys == [] ==> r == "[]"
    ensures keys != [] ==> Split(r[1..|r| - 1], PartSeparator) == CiteNumbers(citations, bibliography, keys)
  {
    var parts := CiteNumbers(citations, bibliography, keys);
    var r := "[" + Join(parts, PartSeparator) + "]";
    assert r[1..|r| - 1] == Join(parts, PartSeparator);
    if keys != [] then
      CiteNumbersSplitBack(citations, bibliography, keys);
      r
    else r
  }

  lemma CiteNumbersSplitBack(citations: seq<string>, bibliography: map<string, Entry>, keys: seq<string>)
    requires keys != []
    ensures Split(Join(CiteNumbers(citations, bibliography, keys), PartSeparator), PartSeparator)
            == CiteNumbers(citations, bibliography, keys)
  {
    var parts := CiteNumbers(citations, bibliography, keys);
    forall k | 0 <= k < |parts| ensures SeparatorFree(parts[k], PartSeparator) {
      assert PartSeparator[0] !in parts[k];
      SeparatorFreeByChar(parts[k], PartSeparator, 0);
    }
    SeparatorFreeNotContains(parts[|parts| - 1], PartSeparator);
    SplitJoin(parts, PartSeparator);
  }

  // ---------------------------------------------------------------------------
  // Long inline citation: "Smith & Doe, 2020"
  // ---------------------------------------------------------------------------

  /** The surname of a "Last, First" name: the text before its first comma, trimmed. */
  function Surname(name: string): string {
    Trim(Split(name, ",")[0])
  }

  function Surnames(names: seq<string>): seq<string> {
    seq(|names|, i requires 0 <= i < |names| => Surname(names[i]))
  }

  /** How the long form names the authors of one work, given their surnames. */
  function AuthorYear(surnames: seq<string>, year: string): string
    requires |surnames| >= 1
  {
    if |surnames| == 1 then surnames[0] + ", " + year
    else if |surnames| == 2 then surnames[0] + " & " + surnames[1] + ", " + year
    else surnames[0] + ", et al., " + year
  }

  /** The long-form text for one key. */
  function LongCitePart(bibliography: map<string, Entry>, key: string): string {
    if key in bibliography then
      var ent := bibliography[key];
      AuthorYear(Surnames(Split(ent.author, AuthorSeparator)), ent.year)
    else "?"
  }

  /** `inline_cite_long(keys)`: the per-key texts joined by ", ", without brackets. */
  function InlineCiteLong(bibliography: map<string, Entry>, keys: seq<string>): string {
    Join(seq(|keys|, i requires 0 <= i < |keys| => LongCitePart(bibliography, keys[i])), PartSeparator)
  }

  // ---------------------------------------------------------------------------
  // Full bibliography entry
  // ---------------------------------------------------------------------------

  /** `s.trim()[0]`, where `undefined` joins as "". */
  function FirstChar(s: string): string {
    var t := Trim(s);
    if t == [] then "" else [t[0]]
  }

  function FirstChars(tokens: seq<string>): seq<string> {
    seq(|tokens|, i requires 0 <= i < |tokens| => FirstChar(tokens[i]))
  }

  /** The initials of a given-names part: first characters joined by ".", then ".". */
  function Initials(firsts: string): string {
    Join(FirstChars(Split(Trim(firsts), " ")), ".") + "."
  }

  /** One author as the bibliography shows it: "Last, I.M." or, without a comma, "Last". */
  function FormatName(name: string): string {
    var pieces := Split(name, ",");
    var last := Trim(pieces[0]);
    if |pieces| > 1 then last + ", " + Initials(pieces[1]) else last
  }

  function FormatNames(names: seq<string>): seq<string> {
    seq(|names|, i requires 0 <= i < |names| => FormatName(names[i]))
  }

  /** All but the last name joined by ", ", then " and " and the last; one name bare. */
  function AuthorList(names: seq<string>): string
    requires |names| >= 1
  {
    var n := |names|;
    if n > 1 then Join(names[..n - 1], ", ") + " and " + names[n - 1]
    else names[0]
  }

  /** `ent.journal || ent.booktitle || ""`. */
  function Venue(ent: Entry): string {
    if Truthy(ent.journal) then ent.journal.value
    else if Truthy(ent.booktitle) then ent.booktitle.value
    else ""
  }

  /** The "(issue)" after a volume: `ent.issue || ent.number`, omitted when `undefined`. */
  function IssueSuffix(ent: Entry): string {
    var issue := if Truthy(ent.issue) then ent.issue else ent.number;
    if issue.Some? then "(" + issue.value + ")" else ""
  }

  function VolumePart(ent: Entry): string {
    if ent.volume.Some? then ", Vol " + ent.volume.value + IssueSuffix(ent) else ""
  }

  function PagesPart(ent: Entry): string {
    if ent.pages.Some? then ", pp. " + ent.pages.value else ""
  }

  /** Everything after the author list. */
  function ReferenceTail(ent: Entry): string {
    ", " + ent.year + ". " + ent.title + ". " + Venue(ent) + VolumePart(ent) + PagesPart(ent) + ". "
  }

  /** `bibliography_cite(ent)`: the full reference, or "?" for a missing entry. */
  function BibliographyCite(ent: Option<Entry>): (r: string)
    ensures r == "?" <==> ent.None?
    ensures ent.Some? ==> |r| >= 2 && r[|r| - 2..] == ". "
  {
    match ent
    case None => "?"
    case Some(e) =>
      var names := Split(e.author, AuthorSeparator);
      var r := AuthorList(FormatNames(names)) + ReferenceTail(e);
      assert r[|r| - 2..] == ". ";
      r
  }

  // ---------------------------------------------------------------------------
  // Properties of the formatters
  // ---------------------------------------------------------------------------

  /** A name without a comma renders as its trimmed self. */
  lemma FormatNameBare(name: string)
    requires ',' !in name
    ensures FormatName(name) == Trim(name)
  {
    SeparatorFreeByChar(name, ",", 0);
    SplitWhole(name, ",");
  }

  /**
   * The surname is the trimmed text before the first comma, or the whole
   * trimmed name when it has no comma.
   */
  lemma SurnameBeforeComma(last: string, rest: string)
    requires ',' !in last
    requires rest == [] || rest[0] == ','
    ensures Surname(last + rest) == Trim(last)
  {
    SeparatorFreeByChar(last, ",", 0);
    if rest == [] {
      assert last + rest == last;
      SplitWhole(last, ",");
    } else {
      assert last + rest == last + "," + rest[1..];
      SplitFirst(last, ",", rest[1..]);
    }
  }

  /**
   * A name with a comma renders as its trimmed surname, ", " and the initials
   * of the second comma-separated piece; any later piece is ignored.
   */
  lemma FormatNameGiven(last: string, firsts: string, more: string)
    requires ',' !in last && ',' !in firsts
    requires more == [] || more[0] == ','
    ensures FormatName(last + "," + firsts + more) == Trim(last) + ", " + Initials(firsts)
  {
    var name := last + "," + firsts + more;
    SplitAtFirstComma(last, firsts, more);
    FormatNameOfPieces(name, last, firsts);
  }

  lemma SplitAtFirstComma(last: string, firsts: string, more: string)
    requires ',' !in last && ',' !in firsts
    requires more == [] || more[0] == ','
    ensures var pieces := Split(last + "," + firsts + more, ",");
      |pieces| >= 2 && pieces[0] == last && pieces[1] == firsts
  {
    SeparatorFreeByChar(last, ",", 0);
    SeparatorFreeByChar(firsts, ",", 0);
    var tail := firsts + more;
    assert last + "," + firsts + more == last + "," + tail;
    SplitFirst(last, ",", tail);
    if more == [] {
      assert tail == firsts;
      SplitWhole(firsts, ",");
    } else {
      assert tail == firsts + "," + more[1..];
      SplitFirst(firsts, ",", more[1..]);
    }
  }

  lemma FormatNameOfPieces(name: string, last: string, firsts: string)
    requires |Split(name, ",")| >= 2 && Split(name, ",")[0] == last && Split(name, ",")[1] == firsts
    ensures FormatName(name) == Trim(last) + ", " + Initials(firsts)
  {
  }

  /** A non-empty token without spaces. */
  predicate Word(w: string) {
    w != [] && forall i :: 0 <= i < |w| ==> !IsSpace(w[i])
  }

  /** Reference definition of initials: each word's first letter followed by ".". */
  function InitialsOf(words: seq<string>): string
    requires forall k :: 0 <= k < |words| ==> Word(words[k])
  {
    if words == [] then ""
    else
      assert Word(words[0]);
      [words[0][0]] + "." + InitialsOf(words[1..])
  }

  lemma {:induction false} JoinLetters(words: seq<string>)
    requires |words| >= 1 && forall k :: 0 <= k < |words| ==> Word(words[k]) && words[k] != []
    ensures Join(seq(|words|, i requires 0 <= i < |words| => [words[i][0]]), ".") + "." == InitialsOf(words)
  {
    var letters := seq(|words|, i requires 0 <= i < |words| => [words[i][0]]);
    if |words| > 1 {
      JoinLetters(words[1..]);
      assert letters[1..] == seq(|words[1..]|, i requires 0 <= i < |words[1..]| => [words[1..][i][0]]);
    }
  }

  lemma {:induction false} JoinWordsTrimmed(words: seq<string>)
    requires |words| >= 1 && forall k :: 0 <= k < |words| ==> Word(words[k])
    ensures Join(words, " ") != [] && Trimmed(Join(words, " "))
  {
    assert Word(words[0]);
    if |words| > 1 {
      JoinWordsTrimmed(words[1..]);
      var rest := Join(words[1..], " ");
      assert Join(words, " ") == words[0] + " " + rest;
      assert Join(words, " ")[0] == words[0][0];
      assert Join(words, " ")[|Join(words, " ")| - 1] == rest[|rest| - 1];
    } else {
      assert words[0][|words[0]| - 1] == words[0][|words[0]| - 1];
    }
  }

  lemma WordsSplit(words: seq<string>)
    requires |words| >= 1 && forall k :: 0 <= k < |words| ==> Word(words[k])
    ensures Split(Join(words, " "), " ") == words
  {
    forall k | 0 <= k < |words| ensures SeparatorFree(words[k], " ") {
      assert Word(words[k]) && IsSpace(' ');
      SeparatorFreeByChar(words[k], " ", 0);
    }
    SeparatorFreeNotContains(words[|words| - 1], " ");
    SplitJoin(words, " ");
  }

  lemma InitialsOfTokens(firsts: string, words: seq<string>)
    requires |words| >= 1 && forall k :: 0 <= k < |words| ==> Word(words[k])
    requires Split(Trim(firsts), " ") == words
    ensures Initials(firsts) == InitialsOf(words)
  {
    forall k | 0 <= k < |words| ensures FirstChar(words[k]) == [words[k][0]] {
      assert Word(words[k]);
      TrimTrimmed(words[k]);
    }
    assert FirstChars(words) == seq(|words|, i requires 0 <= i < |words| => [words[i][0]]);
    JoinLetters(words);
  }

  /**
   * Given names written as space-separated words (with any surrounding
   * spaces) give one initial per word, each followed by a period: "J.M.".
   */
  lemma InitialsOfWords(pre: string, words: seq<string>, post: string)
    requires AllSpace(pre) && AllSpace(post)
    requires |words| >= 1 && forall k :: 0 <= k < |words| ==> Word(words[k])
    ensures Initials(pre + Join(words, " ") + post) == InitialsOf(words)
  {
    var joined := Join(words, " ");
    JoinWordsTrimmed(words);
    TrimPadded(pre, joined, post);
    WordsSplit(words);
    InitialsOfTokens(pre + joined + post, words);
  }

  /** Reference definition of an author list: "A", "A and B", "A, B and C", ... */
  function NaturalList(names: seq<string>): string
    requires |names| >= 1
  {
    if |names| == 1 then names[0]
    else if |names| == 2 then names[0] + " and " + names[1]
    else names[0] + ", " + NaturalList(names[1..])
  }

  lemma {:induction false} AuthorListNatural(names: seq<string>)
    requires |names| >= 1
    ensures AuthorList(names) == NaturalList(names)
  {
    var n := |names|;
    if n > 2 {
      AuthorListNatural(names[1..]);
      assert names[1..][..n - 2] == names[..n - 1][1..];
      assert names[..n - 1][0] == names[0];
    } else if n == 2 {
      assert names[..1] == [names[0]];
    }
  }

  /**
   * The long citation of one present key, for an author field that is the
   * " and "-join of separator-free names: one, two or more surnames.
   */
  lemma LongCiteByAuthors(bibliography: map<string, Entry>, key: string, names: seq<string>)
    requires key in bibliography && bibliography[key].author == Join(names, AuthorSeparator)
    requires |names| >= 1 && forall k :: 0 <= k < |names| - 1 ==> SeparatorFree(names[k], AuthorSeparator)
    requires !Contains(names[|names| - 1], AuthorSeparator)
    ensures var year := bibliography[key].year;
      && (|names| == 1 ==> LongCitePart(bibliography, key) == Surname(names[0]) + ", " + year)
      && (|names| == 2 ==> LongCitePart(bibliography, key) == Surname(names[0]) + " & " + Surname(names[1]) + ", " + year)
      && (|names| > 2 ==> LongCitePart(bibliography, key) == Surname(names[0]) + ", et al., " + year)
  {
    SplitJoin(names, AuthorSeparator);
  }

  /** A single key's long citation has no brackets and no ", " around it. */
  lemma InlineCiteLongSingle(bibliography: map<string, Entry>, key: string)
    ensures InlineCiteLong(bibliography, [key]) == LongCitePart(bibliography, key)
    ensures key !in bibliography ==> InlineCiteLong(bibliography, [key]) == "?"
  {
  }

  /**
   * The volume segment: present exactly when the record has a `volume` key;
   * the parenthesised issue is a truthy `issue`, else a defined `number`,
   * else nothing.
   */
  lemma VolumeCases(ent: Entry)
    ensures ent.volume.None? <==> VolumePart(ent) == ""
    ensures ent.volume.Some? && Truthy(ent.issue) ==>
              VolumePart(ent) == ", Vol " + ent.volume.value + "(" + ent.issue.value + ")"
    ensures ent.volume.Some? && !Truthy(ent.issue) && ent.number.Some? ==>
              VolumePart(ent) == ", Vol " + ent.volume.value + "(" + ent.number.value + ")"
    ensures ent.volume.Some? && !Truthy(ent.issue) && ent.number.None? ==>
              VolumePart(ent) == ", Vol " + ent.volume.value
  {
    if ent.volume.Some? {
      assert |VolumePart(ent)| >= |", Vol "|;
    }
  }

  /** Several keys: each key's long text, joined by ", ", with no brackets. */
  lemma InlineCiteLongCons(bibliography: map<string, Entry>, key: string, keys: seq<string>)
    requires keys != []
    ensures InlineCiteLong(bibliography, [key] + keys)
            == LongCitePart(bibliography, key) + ", " + InlineCiteLong(bibliography, keys)
  {
    var all := [key] + keys;
    var parts := seq(|all|, i requires 0 <= i < |all| => LongCitePart(bibliography, all[i]));
    assert parts[1..] == seq(|keys|, i requires 0 <= i < |keys| => LongCitePart(bibliography, keys[i]));
  }

  /**
   * The full reference of any entry: its " and "-separated names, each
   * formatted, as "A, B and C", followed by the reference tail.
   */
  lemma BibliographyCiteShape(e: Entry)
    ensures BibliographyCite(Some(e)) == NaturalList(FormatNames(Split(e.author, AuthorSeparator))) + ReferenceTail(e)
  {
    AuthorListNatural(FormatNames(Split(e.author, AuthorSeparator)));
  }

  /** An author field joined from separator-free names splits back into those names. */
  lemma AuthorsOfJoin(author: string, names: seq<string>)
    requires author == Join(names, AuthorSeparator)
    requires |names| >= 1 && forall k :: 0 <= k < |names| - 1 ==> SeparatorFree(names[k], AuthorSeparator)
    requires !Contains(names[|names| - 1], AuthorSeparator)
    ensures Split(author, AuthorSeparator) == names
  {
    SplitJoin(names, AuthorSeparator);
  }

  // ---------------------------------------------------------------------------
  // The renderer
  // ---------------------------------------------------------------------------

  /** The content a `dt-cite` marker gets for its `key` attribute, split on "," untrimmed. */
  function CiteContent(citations: seq<string>, bibliography: map<string, Entry>, key: string): string {
    InlineCiteShort(citations, bibliography, Split(key, ","))
  }

  /**
   * The position of the first marker without a `key` attribute, where
   * `getAttribute` yields `null` and the `split` call throws; `|tags|` if none.
   */
  function FirstKeyless(tags: seq<CiteTag>): (k: nat)
    ensures k <= |tags|
    ensures forall i :: 0 <= i < k ==> tags[i].key.Some?
    ensures k < |tags| ==> tags[k].key.None?
  {
    if tags == [] then 0
    else if tags[0].key.None? then 0
    else 1 + FirstKeyless(tags[1..])
  }

  function ListItem(bibliography: map<string, Entry>, key: string): Node {
    Element("li", BibliographyCite(Lookup(bibliography, key)), [])
  }

  /** The `<ol>` the renderer builds: one `<li>` per key of `citations`, in that order. */
  function BibliographyList(citations: seq<string>, bibliography: map<string, Entry>): Node {
    Element("ol", "", seq(|citations|, i requires 0 <= i < |citations| => ListItem(bibliography, citations[i])))
  }

  /** The markers after the first `k` have been rewritten. */
  function RewrittenTags(citations: seq<string>, bibliography: map<string, Entry>, tags: seq<CiteTag>, k: nat): seq<CiteTag>
    requires k <= |tags| && forall i :: 0 <= i < k ==> tags[i].key.Some?
  {
    seq(|tags|, i requires 0 <= i < |tags| =>
      if i < k then tags[i].(content := CiteContent(citations, bibliography, tags[i].key.value)) else tags[i])
  }

  lemma RewriteOneMore(citations: seq<string>, bibliography: map<string, Entry>, tags: seq<CiteTag>, i: nat)
    requires i < |tags| && forall j :: 0 <= j <= i ==> tags[j].key.Some?
    ensures RewrittenTags(citations, bibliography, tags, i)[i := tags[i].(content := CiteContent(citations, bibliography, tags[i].key.value))]
            == RewrittenTags(citations, bibliography, tags, i + 1)
  {
  }

  /** What a run of the renderer leaves behind, and whether it threw. */
  datatype Outcome = Outcome(dom: DomState, thrown: bool)

  /** The document after the renderer: the specification `RenderCitations` meets. */
  function Rendered(s: DomState, d: DataState): Outcome {
    var k := FirstKeyless(s.citeTags);
    var tags := RewrittenTags(d.citations, d.bibliography, s.citeTags, k);
    if k < |s.citeTags| then Outcome(s.(citeTags := tags), true)
    else if s.bibliographies == [] then Outcome(s.(citeTags := tags), false)
    else
      var ol := BibliographyList(d.citations, d.bibliography);
      Outcome(s.(citeTags := tags, bibliographies := s.bibliographies[0 := s.bibliographies[0] + [ol]]), false)
  }

  /** Builds the `<ol>` item by item, as the `citations.forEach` does. */
  method BuildBibliographyList(citations: seq<string>, bibliography: map<string, Entry>) returns (ol: Node)
    ensures ol == BibliographyList(citations, bibliography)
  {
    var items: seq<Node> := [];
    for i := 0 to |citations|
      invariant items == seq(i, j requires 0 <= j < i => ListItem(bibliography, citations[j]))
    {
      var text := BibliographyCite(Lookup(bibliography, citations[i]));
      items := items + [Element("li", text, [])];
    }
    ol := Element("ol", "", items);
  }

  /**
   * The renderer: rewrites every `dt-cite` marker in document order, then,
   * if there is a `dt-bibliography` element, appends the list to the first.
   * A marker without a `key` makes it throw (`thrown`) with the earlier
   * markers already rewritten and no list appended.
   */
  method RenderCitations(dom: Dom, data: Data) returns (thrown: bool)
    modifies dom
    ensures dom.State() == Rendered(old(dom.State()), data.State()).dom
    ensures thrown == Rendered(old(dom.State()), data.State()).thrown
  {
    ghost var tags0 := dom.citeTags;
    ghost var k := FirstKeyless(tags0);
    var i := 0;
    while i < |dom.citeTags|
      invariant i <= k && |dom.citeTags| == |tags0|
      invariant dom.citeTags == RewrittenTags(data.citations, data.bibliography, tags0, i)
      invariant dom.bibliographies == old(dom.bibliographies) && dom.scriptSrcs == old(dom.scriptSrcs)
      invariant dom.bodyAttributes == old(dom.bodyAttributes) && dom.other == old(dom.other)
    {
      var tag := dom.citeTags[i];
      if tag.key.None? {
        assert i == k;
        assert dom.State() == old(dom.State()).(citeTags := dom.citeTags);
        return true;
      }
      var keys := Split(tag.key.value, ",");
      RewriteOneMore(data.citations, data.bibliography, tags0, i);
      dom.citeTags := dom.citeTags[i := tag.(content := InlineCiteShort(data.citations, data.bibliography, keys))];
      i := i + 1;
    }
    if dom.bibliographies != [] {
      var ol := BuildBibliographyList(data.citations, data.bibliography);
      dom.bibliographies := dom.bibliographies[0 := dom.bibliographies[0] + [ol]];
    }
    return false;
  }

  // ---------------------------------------------------------------------------
  // Properties of the renderer
  // ---------------------------------------------------------------------------

  /**
   * Markers: the renderer throws exactly when some marker has no `key`; every
   * marker before the first such one shows the short citation of its
   * comma-split key, and the rest are untouched. Keys are never changed.
   */
  lemma RenderedMarkers(s: DomState, d: DataState)
    ensures var o := Rendered(s, d); var tags := s.citeTags; var k := FirstKeyless(tags);
      && (o.thrown <==> exists i :: 0 <= i < |tags| && tags[i].key.None?)
      && |o.dom.citeTags| == |tags|
      && (forall i :: 0 <= i < |tags| ==> o.dom.citeTags[i].key == tags[i].key)
      && (forall i :: 0 <= i < k ==>
            o.dom.citeTags[i].content == InlineCiteShort(d.citations, d.bibliography, Split(tags[i].key.value, ",")))
      && (forall i :: k <= i < |tags| ==> o.dom.citeTags[i] == tags[i])
  {
    var tags := s.citeTags;
    var k := FirstKeyless(tags);
    FirstKeylessExists(tags);
    RewrittenTagsFacts(d.citations, d.bibliography, tags, k);
    assert Rendered(s, d).dom.citeTags == RewrittenTags(d.citations, d.bibliography, tags, k);
    assert Rendered(s, d).thrown == (k < |tags|);
  }

  lemma FirstKeylessExists(tags: seq<CiteTag>)
    ensures FirstKeyless(tags) < |tags| <==> exists i :: 0 <= i < |tags| && tags[i].key.None?
  {
    var k := FirstKeyless(tags);
    if k < |tags| {
      assert tags[k].key.None?;
    }
  }

  lemma RewrittenTagsFacts(citations: seq<string>, bibliography: map<string, Entry>, tags: seq<CiteTag>, k: nat)
    requires k <= |tags| && forall i :: 0 <= i < k ==> tags[i].key.Some?
    ensures var r := RewrittenTags(citations, bibliography, tags, k);
      && |r| == |tags|
      && (forall i :: 0 <= i < |tags| ==> r[i].key == tags[i].key)
      && (forall i :: 0 <= i < k ==> r[i].content == InlineCiteShort(citations, bibliography, Split(tags[i].key.value, ",")))
      && (forall i :: k <= i < |tags| ==> r[i] == tags[i])
  {
  }

  /**
   * Placeholders: after a run that did not throw, the first `dt-bibliography`
   * has the list appended and the others are untouched; without a placeholder,
   * or after a throw, no list is created anywhere.
   */
  lemma RenderedBibliography(s: DomState, d: DataState)
    ensures var o := Rendered(s, d); var bibs := s.bibliographies;
      && |o.dom.bibliographies| == |bibs|
      && (!o.thrown && bibs != [] ==>
            && o.dom.bibliographies[0] == bibs[0] + [BibliographyList(d.citations, d.bibliography)]
            && forall j :: 1 <= j < |bibs| ==> o.dom.bibliographies[j] == bibs[j])
      && (o.thrown || bibs == [] ==> o.dom.bibliographies == bibs)
  {
  }

  /**
   * The list has one item per citation key, in `citations` order; an item
   * reads "?" exactly when its key has no bibliography record, and otherwise
   * is that record's full reference.
   */
  lemma BibliographyListItems(citations: seq<string>, bibliography: map<string, Entry>)
    ensures var ol := BibliographyList(citations, bibliography);
      && ol.tag == "ol" && |ol.children| == |citations|
      && forall i :: 0 <= i < |citations| ==>
           && ol.children[i].tag == "li" && ol.children[i].children == []
           && (ol.children[i].text == "?" <==> citations[i] !in bibliography)
           && (citations[i] in bibliography ==> ol.children[i].text == BibliographyCite(Some(bibliography[citations[i]])))
  {
  }

  /** Nothing is removed: every placeholder keeps its children as a prefix; the rest is unchanged. */
  lemma RenderedRemovesNothing(s: DomState, d: DataState)
    ensures var o := Rendered(s, d).dom;
      && |o.citeTags| == |s.citeTags| && |o.bibliographies| == |s.bibliographies|
      && (forall j :: 0 <= j < |s.bibliographies| ==> s.bibliographies[j] <= o.bibliographies[j])
      && o.scriptSrcs == s.scriptSrcs && o.bodyAttributes == s.bodyAttributes && o.other == s.other
  {
  }

  /**
   * Running the renderer a second time over its own output rewrites the
   * markers to the same text but appends a second copy of the list.
   */
  lemma RenderedTwice(s: DomState, d: DataState)
    requires !Rendered(s, d).thrown && s.bibliographies != []
    ensures var once := Rendered(s, d).dom; var twice := Rendered(once, d);
      && !twice.thrown
      && twice.dom.citeTags == once.citeTags
      && twice.dom.bibliographies[0]
         == s.bibliographies[0] + [BibliographyList(d.citations, d.bibliography), BibliographyList(d.citations, d.bibliography)]
  {
    var once := Rendered(s, d).dom;
    var k := FirstKeyless(s.citeTags);
    RenderedMarkers(s, d);
    RenderedMarkers(once, d);
    assert FirstKeyless(once.citeTags) == |once.citeTags|;
  }
}
