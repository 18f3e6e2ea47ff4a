/**
 * The form scraping helpers of the Skolplattformen client
 * (`skolplattformen::util`): every named input of a form with its value, an
 * input without a value counting as the empty string.
 */
module FormUtil {
  import opened Wrappers
  import opened Assoc
  import opened Html

  /** The inputs of a form: the `input` elements below it. */
  function Inputs(form: Node): seq<Node>
  {
    Find(Children(form), "input")
  }

  /** An element's `name` attribute. */
  function NameOf(n: Node): Option<string>
  {
    if n.Element? then Attr(n.attrs, "name") else None
  }

  /** An element's `value` attribute. */
  function ValueOf(n: Node): Option<string>
  {
    if n.Element? then Attr(n.attrs, "value") else None
  }

  /** The `filter_map` closure of `form_fields`: a name is required, the value defaults to "". */
  function Field(n: Node): Option<(string, string)>
  {
    var name, value := NameOf(n), ValueOf(n);
    if name.None? then None else Some((name.value, if value.Some? then value.value else ""))
  }

  /** `form_fields`. */
  function FormFields(form: Node): map<string, string>
  {
    Collect(FilterMap(Inputs(form), Field))
  }

  /** `scrape_form`: the fields of the first form of the document, if it has one. */
  function ScrapeForm(doc: seq<Node>): Option<map<string, string>>
  {
    var forms := Find(doc, "form");
    if |forms| == 0 then None else Some(FormFields(forms[0]))
  }

  /**
   * A name is a field exactly when some input carries it; its value is that of
   * the last input with the name, or "" when that input has no value.
   */
  lemma FormFieldsSpec(form: Node, k: string)
    ensures var ins := Inputs(form);
      k in FormFields(form) <==> exists i :: 0 <= i < |ins| && NameOf(ins[i]) == Some(k)
    ensures var ins := Inputs(form);
      k in FormFields(form) ==>
        exists i :: 0 <= i < |ins| && NameOf(ins[i]) == Some(k)
          && FormFields(form)[k] == (if ValueOf(ins[i]).Some? then ValueOf(ins[i]).value else "")
          && forall j :: i < j < |ins| ==> NameOf(ins[j]) != Some(k)
  {
    CollectFilterMap(Inputs(form), Field, k);
  }

  /** There is a result exactly when the document has a form, and it is the first form's fields. */
  lemma ScrapeFormSpec(doc: seq<Node>)
    ensures ScrapeForm(doc).None? <==> forall n :: n in Descendants(doc) ==> !(n.Element? && n.name == "form")
    ensures ScrapeForm(doc).Some? ==> ScrapeForm(doc).value == FormFields(Find(doc, "form")[0])
  {
    NamedEmpty(Descendants(doc), "form");
  }

  /** The document of the example in the documentation of `scrape_form`. */
  function ExampleDocument(): seq<Node>
  {
    [Element("html", [], [
      Element("form", [], [
        Element("input", [("type", "email"), ("name", "email")], []),
        Element("input", [("type", "text"), ("name", "username"), ("value", "Prefilled")], []),
        Element("input", [("type", "submit")], [])])])]
  }

  /** That example: "email" maps to "", "username" to "Prefilled", and the submit button is not a field. */
  lemma ExampleFields()
    ensures ScrapeForm(ExampleDocument()).Some?
    ensures ScrapeForm(ExampleDocument()).value == map["email" := "", "username" := "Prefilled"]
  {
    var email := Element("input", [("type", "email"), ("name", "email")], []);
    var username := Element("input", [("type", "text"), ("name", "username"), ("value", "Prefilled")], []);
    var submit := Element("input", [("type", "submit")], []);
    var form := Element("form", [], [email, username, submit]);
    SingleFormTree(ExampleDocument(), form, [email, username, submit]);
    ExampleAttrs(email, username, submit);
    ExampleInputs(email, username, submit);
  }

  /** A document whose one root holds one form of childless inputs. */
  lemma SingleFormTree(doc: seq<Node>, form: Node, ins: seq<Node>)
    requires |doc| == 1 && doc[0].Element? && doc[0].name != "form" && doc[0].children == [form]
    requires form.Element? && form.name == "form" && form.children == ins
    requires forall n :: n in ins ==> n.Element? && n.name == "input" && n.children == []
    ensures Find(doc, "form") == [form]
    ensures Inputs(form) == ins
  {
    LeafDescendants(ins);
    var below := Descendants([form]);
    assert below == [form] + ins by {
      assert [form][1..] == [];
      assert Descendants([form][1..]) == [];
    }
    assert Descendants(doc) == [doc[0]] + below by {
      assert doc[1..] == [];
      assert Descendants(doc[1..]) == [];
    }
    assert "input" != "form";
    NamedEmpty(ins, "form");
    assert Named([form] + ins, "form") == [form] by {
      assert ([form] + ins)[1..] == ins;
    }
    assert Named([doc[0]] + below, "form") == Named(below, "form") by {
      assert ([doc[0]] + below)[1..] == below;
    }
    NamedUniform(ins, "input");
  }

  /** Childless nodes are their own descendants. */
  lemma {:induction false} LeafDescendants(ns: seq<Node>)
    requires forall n :: n in ns ==> n.Element? && n.children == []
    ensures Descendants(ns) == ns
    decreases |ns|
  {
    if |ns| > 0 {
      LeafDescendants(ns[1..]);
    }
  }

  /** Elements that all carry the name are all found. */
  lemma {:induction false} NamedUniform(ns: seq<Node>, name: string)
    requires forall n :: n in ns ==> n.Element? && n.name == name
    ensures Named(ns, name) == ns
    decreases |ns|
  {
    if |ns| > 0 {
      NamedUniform(ns[1..], name);
    }
  }

  lemma ExampleAttrs(email: Node, username: Node, submit: Node)
    requires email == Element("input", [("type", "email"), ("name", "email")], [])
    requires username == Element("input", [("type", "text"), ("name", "username"), ("value", "Prefilled")], [])
    requires submit == Element("input", [("type", "submit")], [])
    ensures NameOf(email) == Some("email") && ValueOf(email) == None
    ensures NameOf(username) == Some("username") && ValueOf(username) == Some("Prefilled")
    ensures NameOf(submit) == None && ValueOf(submit) == None
  {
    assert "type" != "name" && "type" != "value" && "name" != "value";
  }

  lemma ExampleInputs(email: Node, username: Node, submit: Node)
    requires NameOf(email) == Some("email") && ValueOf(email) == None
    requires NameOf(username) == Some("username") && ValueOf(username) == Some("Prefilled")
    requires NameOf(submit) == None
    ensures Collect(FilterMap([email, username, submit], Field)) == map["email" := "", "username" := "Prefilled"]
  {
    var ins := [email, username, submit];
    assert ins[..2][..1] == ins[..1];
    assert ins[..1][..0] == [];
    assert FilterMap(ins[..1], Field) == [("email", "")];
    assert FilterMap(ins[..2], Field) == [("email", ""), ("username", "Prefilled")];
    assert FilterMap(ins, Field) == [("email", ""), ("username", "Prefilled")];
    var ps := [("email", ""), ("username", "Prefilled")];
    assert ps[..1] == [("email", "")];
    assert [("email", "")][..0] == [];
  }
}
