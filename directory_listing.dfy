/** The event handlers of the HTML directory-listing parser: the page title tells
    whether the page is an index, and the href of every hyperlink is collected, except
    links with an empty href and the link to the parent directory. */
module DirectoryListing {
  import opened Wrappers

  /** One attribute of a start tag; a value may be missing (`<a href>`). */
  type Attribute = (string, Option<string>)

  /** The callbacks the HTML tokenizer makes. */
  datatype Event =
    | StartTag(tag: string, attrs: seq<Attribute>)
    | EndTag(tag: string)
    | Data(text: string)

  /** The parser's fields.  `currAttrs` starts as the empty string in the source and
      is reset to it; the empty attribute list stands for that. */
  datatype ParserState = ParserState(
    title: string,
    isDirListing: bool,
    dirList: seq<Option<string>>,
    inTitle: bool,
    inHyperLink: bool,
    currAttrs: seq<Attribute>,
    currHref: Option<string>)

  const NO_HREF: Option<string> := Some("")

  const Initial: ParserState := ParserState("Undefined", false, [], false, false, [], NO_HREF)

  /** Substring test, as Python's `in` on strings. */
  predicate Contains(s: string, sub: string)
  {
    exists i :: 0 <= i <= |s| - |sub| && OccursAt(s, sub, i)
  }

  predicate OccursAt(s: string, sub: string, i: int)
  {
    0 <= i && i + |sub| <= |s| && s[i..i + |sub|] == sub
  }

  /** The href left after scanning `attrs` in order, starting from `current`: each
      href attribute overwrites the one before it. */
  function HrefAfter(attrs: seq<Attribute>, current: Option<string>): Option<string>
  {
    if attrs == [] then current
    else if attrs[|attrs| - 1].0 == "href" then attrs[|attrs| - 1].1
    else HrefAfter(attrs[..|attrs| - 1], current)
  }

  predicate NoHref(attrs: seq<Attribute>)
  {
    forall j :: 0 <= j < |attrs| ==> attrs[j].0 != "href"
  }

  /** Attribute j is an href and no later attribute is. */
  predicate IsLastHref(attrs: seq<Attribute>, j: int)
  {
    0 <= j < |attrs| && attrs[j].0 == "href" && NoHref(attrs[j + 1..])
  }

  /** The last href attribute wins; without one the current href is kept. */
  lemma {:induction false} HrefAfterIsLastHref(attrs: seq<Attribute>, current: Option<string>)
    ensures NoHref(attrs) ==> HrefAfter(attrs, current) == current
    ensures forall j :: IsLastHref(attrs, j) ==> HrefAfter(attrs, current) == attrs[j].1
  {
    if attrs != [] {
      var n := |attrs| - 1;
      var init := attrs[..n];
      HrefAfterIsLastHref(init, current);
      if NoHref(attrs) {
        assert attrs[n].0 != "href";
        assert forall j :: 0 <= j < |init| ==> init[j] == attrs[j];
      }
      forall j | IsLastHref(attrs, j)
        ensures HrefAfter(attrs, current) == attrs[j].1
      {
        if j < n {
          assert attrs[j + 1..][n - j - 1] == attrs[n];
          assert init[j] == attrs[j];
          assert init[j + 1..] == attrs[j + 1..][..n - j - 1];
          assert IsLastHref(init, j);
        }
      }
    }
  }

  /** The parser's response to one event. */
  function Step(st: ParserState, e: Event): ParserState
  {
    match e
    case StartTag(tag, attrs) =>
      var st1 := if tag == "title" then st.(inTitle := true) else st;
      if tag == "a" then
        st1.(inHyperLink := true, currAttrs := attrs, currHref := HrefAfter(attrs, st1.currHref))
      else st1
    case EndTag(tag) =>
      var st1 := if tag == "title" then st.(inTitle := false) else st;
      if tag == "a" then
        st1.(dirList := if st1.currHref != NO_HREF then st1.dirList + [st1.currHref] else st1.dirList,
             currAttrs := [], currHref := NO_HREF, inHyperLink := false)
      else st1
    case Data(text) =>
      var st1 := if st.inTitle then st.(title := text, isDirListing := st.isDirListing || Contains(text, "Index of"))
                 else st;
      if st1.inHyperLink && Contains(text, "Parent Directory") then st1.(currHref := NO_HREF) else st1
  }

  /** The parser's response to a run of events, in order. */
  function Run(st: ParserState, events: seq<Event>): ParserState
    decreases |events|
  {
    if events == [] then st else Run(Step(st, events[0]), events[1..])
  }

  /** Only the end of a hyperlink touches the list, and it appends the current href
      when that is not empty. */
  lemma OnlyEndOfLinkAppends(st: ParserState, e: Event)
    ensures e != EndTag("a") ==> Step(st, e).dirList == st.dirList
    ensures e == EndTag("a") && st.currHref != NO_HREF ==> Step(st, e).dirList == st.dirList + [st.currHref]
    ensures e == EndTag("a") && st.currHref == NO_HREF ==> Step(st, e).dirList == st.dirList
    ensures e == EndTag("a") ==> Step(st, e).currHref == NO_HREF && !Step(st, e).inHyperLink
  {
  }

  /** The list only grows, by appending. */
  lemma {:induction false} RunExtendsList(st: ParserState, events: seq<Event>)
    ensures |st.dirList| <= |Run(st, events).dirList|
    ensures Run(st, events).dirList[..|st.dirList|] == st.dirList
    decreases |events|
  {
    if events != [] {
      var next := Step(st, events[0]);
      OnlyEndOfLinkAppends(st, events[0]);
      RunExtendsList(next, events[1..]);
      assert Run(st, events).dirList[..|next.dirList|][..|st.dirList|] == st.dirList;
    }
  }

  /** The empty href is never listed. */
  lemma {:induction false} RunNeverListsEmptyHref(st: ParserState, events: seq<Event>)
    requires NO_HREF !in st.dirList
    ensures NO_HREF !in Run(st, events).dirList
    decreases |events|
  {
    if events != [] {
      OnlyEndOfLinkAppends(st, events[0]);
      RunNeverListsEmptyHref(Step(st, events[0]), events[1..]);
    }
  }

  /** Once the title has said "Index of", the page stays a directory listing. */
  lemma {:induction false} RunKeepsDirListing(st: ParserState, events: seq<Event>)
    requires st.isDirListing
    ensures Run(st, events).isDirListing
    decreases |events|
  {
    if events != [] {
      RunKeepsDirListing(Step(st, events[0]), events[1..]);
    }
  }

  /** Text inside the title replaces it and decides, with what was known before,
      whether the page is a directory listing. */
  lemma TitleText(st: ParserState, text: string)
    requires st.inTitle
    ensures Step(st, Data(text)).title == text
    ensures Step(st, Data(text)).isDirListing <==> st.isDirListing || Contains(text, "Index of")
    ensures Step(st, Data(text)).dirList == st.dirList
  {
  }

  /** Text outside the title leaves it alone. */
  lemma TextOutsideTitle(st: ParserState, text: string)
    requires !st.inTitle
    ensures Step(st, Data(text)).title == st.title
    ensures Step(st, Data(text)).isDirListing == st.isDirListing
  {
  }

  /** A hyperlink `<a ...>text</a>` whose last href is a non-empty `h` is listed as
      `h`, unless its text mentions the parent directory, in which case nothing is
      listed. */
  lemma LinkIsListed(st: ParserState, attrs: seq<Attribute>, text: string)
    ensures var after := Run(st, [StartTag("a", attrs), Data(text), EndTag("a")]);
      var href := HrefAfter(attrs, st.currHref);
      after.dirList == (if href != NO_HREF && !Contains(text, "Parent Directory") then st.dirList + [href] else st.dirList) &&
      after.currHref == NO_HREF && !after.inHyperLink
  {
    var s1 := Step(st, StartTag("a", attrs));
    var s2 := Step(s1, Data(text));
    var s3 := Step(s2, EndTag("a"));
    var events := [StartTag("a", attrs), Data(text), EndTag("a")];
    assert events[1..] == [Data(text), EndTag("a")];
    assert events[1..][1..] == [EndTag("a")];
    assert Run(s2, [EndTag("a")]) == Run(s3, []) == s3;
    assert Run(s1, events[1..]) == Run(s2, [EndTag("a")]);
    assert Run(st, events) == Run(s1, events[1..]);
    assert s1.inHyperLink && s1.dirList == st.dirList;
    assert s2.dirList == st.dirList;
    assert s2.currHref == (if Contains(text, "Parent Directory") then NO_HREF else HrefAfter(attrs, st.currHref));
  }

  /** The parser object: the handlers update its fields as `Step` says. */
  class Parser {
    var title: string
    var isDirListing: bool
    var dirList: seq<Option<string>>
    var inTitle: bool
    var inHyperLink: bool
    var currAttrs: seq<Attribute>
    var currHref: Option<string>

    function State(): ParserState
      reads this
    {
      ParserState(title, isDirListing, dirList, inTitle, inHyperLink, currAttrs, currHref)
    }

    constructor ()
      ensures State() == Initial
    {
      title := "Undefined";
      isDirListing := false;
      dirList := [];
      inTitle := false;
      inHyperLink := false;
      currAttrs := [];
      currHref := NO_HREF;
    }

    method HandleStartTag(tag: string, attrs: seq<Attribute>)
      modifies this
      ensures State() == Step(old(State()), StartTag(tag, attrs))
    {
      if tag == "title" {
        inTitle := true;
      }
      if tag == "a" {
        inHyperLink := true;
        currAttrs := attrs;
        var i := 0;
        ghost var start := currHref;
        while i < |attrs|
          invariant 0 <= i <= |attrs|
          invariant currHref == HrefAfter(attrs[..i], start)
          invariant State() == old(State()).(inHyperLink := true, currAttrs := attrs, currHref := currHref)
        {
          assert attrs[..i + 1][..i] == attrs[..i];
          if attrs[i].0 == "href" {
            currHref := attrs[i].1;
          }
          i := i + 1;
        }
        assert attrs[..i] == attrs;
      }
    }

    method HandleEndTag(tag: string)
      modifies this
      ensures State() == Step(old(State()), EndTag(tag))
    {
      if tag == "title" {
        inTitle := false;
      }
      if tag == "a" {
        if currHref != NO_HREF {
          dirList := dirList + [currHref];
        }
        currAttrs := [];
        currHref := NO_HREF;
        inHyperLink := false;
      }
    }

    method HandleData(text: string)
      modifies this
      ensures State() == Step(old(State()), Data(text))
    {
      if inTitle {
        title := text;
        if Contains(title, "Index of") {
          isDirListing := true;
        }
      }
      if inHyperLink {
        if Contains(text, "Parent Directory") {
          currHref := NO_HREF;
        }
      }
    }

    method GetDirListing() returns (list: seq<Option<string>>)
      ensures list == dirList
    {
      list := dirList;
    }
  }
}
