/** Reading fields of a parsed export document.

    The XML parser itself is not modelled. A parsed element is a map from the
    qualified tag of a child (`{uri}local`, or the bare tag in the default
    namespace) to that child's text, `None` for a child without text; the
    map keeps the first child with each tag. The namespace table maps every
    prefix declared in the document to `{uri}`. */
module Fields {
  import opened Base
  import opened Strings
  import opened Seqs

  type Element = map<string, Option<string>>
  type Namespaces = map<string, string>

  /** What a missing field reads as, unless empty-on-miss is requested. */
  const NoContent: string := "No Content Found"

  /** Split `prefix:tag` at the first colon when the colon is not the first
      character; otherwise the whole name is a tag of the default namespace. */
  function SplitQualified(q: string): (r: (string, string))
    ensures r.0 != "" ==> q == r.0 + ":" + r.1 && ':' !in r.0
    ensures r.0 == "" ==> r.1 == q && (':' in q ==> q[0] == ':')
  {
    if ':' in q && FirstIndex(q, ':') > 0 then
      var i := FirstIndex(q, ':');
      assert q == q[..i] + ":" + q[i + 1..];
      (q[..i], q[i + 1..])
    else ("", q)
  }

  /** The namespace table in force while items are read: the prefixes the
      document declared, plus the default namespace as the empty prefix. */
  function WithDefault(ns: Namespaces): (r: Namespaces)
    ensures "" in r && r[""] == ""
    ensures forall p :: p != "" ==> (p in r <==> p in ns) && (p in ns ==> r[p] == ns[p])
  {
    ns["" := ""]
  }

  /** The text of child `tag` of the namespace bound to `prefix` in item
      `e`: the stripped text of the child when it exists and has text;
      otherwise `No Content Found`, or the empty string when `empty` is set.
      An undeclared prefix is an error the converter does not catch. */
  function Lookup(ns: Namespaces, e: Element, prefix: string, tag: string, empty: bool): (r: Result<string>)
    ensures r.Failure? <==> prefix !in ns
    ensures r.Failure? ==> r.fault == UnknownPrefix(prefix)
    ensures r.Success? && ns[prefix] + tag in e && e[ns[prefix] + tag].Some? ==>
              r.value == Strip(e[ns[prefix] + tag].value)
    ensures r.Success? && !(ns[prefix] + tag in e && e[ns[prefix] + tag].Some?) ==>
              r.value == if empty then "" else NoContent
  {
    if prefix !in ns then Failure(UnknownPrefix(prefix))
    else
      var key := ns[prefix] + tag;
      if key in e && e[key].Some? then Success(Strip(e[key].value))
      else Success(if empty then "" else NoContent)
  }

  /** The text of field `q` (`gi`): the name is split into prefix and tag
      and looked up. */
  function FieldText(ns: Namespaces, e: Element, q: string, empty: bool): (r: Result<string>)
    ensures r.Failure? <==> SplitQualified(q).0 !in ns
    ensures r.Failure? ==> r.fault == UnknownPrefix(SplitQualified(q).0)
  {
    var (prefix, tag) := SplitQualified(q);
    Lookup(ns, e, prefix, tag, empty)
  }

  /** `p:t` with a non-empty colon-free `p` splits at its first colon. */
  lemma QualifiedSplit(p: string, t: string)
    requires p != "" && ':' !in p
    ensures SplitQualified(p + ":" + t) == (p, t)
  {
    var q := p + ":" + t;
    assert q[|p|] == ':';
    assert forall j :: 0 <= j < |p| ==> q[j] == p[j];
    var k := FirstIndex(q, ':');
    assert k == |p|;
    assert q[..k] == p && q[k + 1..] == t;
  }

  /** A colon-free name is a tag of the default namespace. */
  lemma PlainSplit(t: string)
    requires ':' !in t
    ensures SplitQualified(t) == ("", t)
  {
  }

  // ------------------------------------------------------------ the channel

  datatype ExportHeader = ExportHeader(title: string, link: string, description: string)

  /** `str(c.find(tag).text)`: a missing child is an uncaught error, a child
      without text reads as `None`; no stripping. */
  function ChildText(e: Element, tag: string): (r: Result<string>)
    ensures r.Failure? <==> tag !in e
    ensures r.Success? ==> r.value == e[tag].GetOr("None")
  {
    if tag !in e then Failure(MissingElement(tag)) else Success(e[tag].GetOr("None"))
  }

  /** The export header from the `channel` element. */
  function ParseHeader(channel: Option<Element>): (r: Result<ExportHeader>)
    ensures r.Success? <==> channel.Some? && "title" in channel.value && "link" in channel.value && "description" in channel.value
    ensures r.Success? ==> r.value.link == channel.value["link"].GetOr("None")
    ensures r.Success? ==> r.value.title == channel.value["title"].GetOr("None")
    ensures r.Success? ==> r.value.description == channel.value["description"].GetOr("None")
  {
    if channel.None? then Failure(MissingElement("channel"))
    else
      var c := channel.value;
      var title :- ChildText(c, "title");
      var link :- ChildText(c, "link");
      var description :- ChildText(c, "description");
      Success(ExportHeader(title, link, description))
  }
}
