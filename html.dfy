/**
 * A parsed HTML document as the two scraping libraries present it: a forest
 * of element and text nodes. Only what the form extractors use is modelled:
 * element names, attributes in source order, and the descendant search by
 * element name, which visits nodes in document (pre-)order.
 */
module Html {
  import opened Wrappers

  datatype Node = Element(name: string, attrs: seq<(string, string)>, children: seq<Node>) | Text(text: string)

  function Children(n: Node): seq<Node>
  {
    if n.Element? then n.children else []
  }

  /** An attribute's value; a parser keeps the first of repeated attributes. */
  function Attr(attrs: seq<(string, string)>, key: string): (r: Option<string>)
    ensures r.Some? <==> exists i :: 0 <= i < |attrs| && attrs[i].0 == key
    ensures r.Some? ==> exists i :: 0 <= i < |attrs| && attrs[i] == (key, r.value)
                                    && forall j :: 0 <= j < i ==> attrs[j].0 != key
  {
    if |attrs| == 0 then None
    else if attrs[0].0 == key then Some(attrs[0].1)
    else
      var r := Attr(attrs[1..], key);
      assert forall i :: 0 < i < |attrs| ==> attrs[i] == attrs[1..][i - 1];
      r
  }

  /** Every node of the forest, each followed by its own descendants, in document order. */
  function Descendants(ns: seq<Node>): seq<Node>
    decreases ns
  {
    if |ns| == 0 then []
    else
      var below := if ns[0].Element? then Descendants(ns[0].children) else [];
      [ns[0]] + below + Descendants(ns[1..])
  }

  /** The elements named `name` among `ns`, in order. */
  function Named(ns: seq<Node>, name: string): seq<Node>
  {
    if |ns| == 0 then []
    else (if ns[0].Element? && ns[0].name == name then [ns[0]] else []) + Named(ns[1..], name)
  }

  /** The elements named `name` among the roots and everything below them, in document order. */
  function Find(roots: seq<Node>, name: string): seq<Node>
  {
    Named(Descendants(roots), name)
  }

  /** The search finds exactly the elements of that name. */
  lemma {:induction false} NamedMembers(ns: seq<Node>, name: string)
    ensures forall n :: n in Named(ns, name) <==> n in ns && n.Element? && n.name == name
    decreases |ns|
  {
    if |ns| > 0 {
      NamedMembers(ns[1..], name);
    }
  }

  /** The search is empty exactly when nothing of that name is in the forest. */
  lemma {:induction false} NamedEmpty(ns: seq<Node>, name: string)
    ensures |Named(ns, name)| == 0 <==> forall n :: n in ns ==> !(n.Element? && n.name == name)
  {
    NamedMembers(ns, name);
    if |Named(ns, name)| > 0 {
      assert Named(ns, name)[0] in Named(ns, name);
    }
  }
}
