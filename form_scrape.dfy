/**
 * The form scraping of the `scrape` crate: like the client's helper, but an
 * input counts only when it has both a name and a value.
 */
module FormScrape {
  import opened Wrappers
  import opened Assoc
  import opened Html
  import FormUtil

  /** The `filter_map` closure of `map_form_fields`: both attributes are required. */
  function Field(n: Node): Option<(string, string)>
  {
    var name, value := FormUtil.NameOf(n), FormUtil.ValueOf(n);
    if name.None? || value.None? then None else Some((name.value, value.value))
  }

  /** `map_form_fields`. */
  function MapFormFields(form: Node): map<string, string>
  {
    Collect(FilterMap(FormUtil.Inputs(form), Field))
  }

  /** `scrape_form`: the fields of the first form of the document, if it has one. */
  function ScrapeForm(doc: seq<Node>): Option<map<string, string>>
  {
    var forms := Find(doc, "form");
    if |forms| == 0 then None else Some(MapFormFields(forms[0]))
  }

  /**
   * A name is a field exactly when some input carries it together with a
   * value; the value is that of the last such input, copied as it is.
   */
  lemma MapFormFieldsSpec(form: Node, k: string)
    ensures var ins := FormUtil.Inputs(form);
      k in MapFormFields(form) <==>
        exists i :: 0 <= i < |ins| && FormUtil.NameOf(ins[i]) == Some(k) && FormUtil.ValueOf(ins[i]).Some?
    ensures var ins := FormUtil.Inputs(form);
      k in MapFormFields(form) ==>
        exists i :: 0 <= i < |ins| && FormUtil.NameOf(ins[i]) == Some(k) && FormUtil.ValueOf(ins[i]).Some?
          && MapFormFields(form)[k] == FormUtil.ValueOf(ins[i]).value
          && forall j :: i < j < |ins| ==> !(FormUtil.NameOf(ins[j]) == Some(k) && FormUtil.ValueOf(ins[j]).Some?)
  {
    CollectFilterMap(FormUtil.Inputs(form), Field, k);
  }

  /** There is a result exactly when the document has a form, and it is the first form's fields. */
  lemma ScrapeFormSpec(doc: seq<Node>)
    ensures ScrapeForm(doc).None? <==> forall n :: n in Descendants(doc) ==> !(n.Element? && n.name == "form")
    ensures ScrapeForm(doc).Some? ==> ScrapeForm(doc).value == MapFormFields(Find(doc, "form")[0])
    ensures ScrapeForm(doc).None? <==> FormUtil.ScrapeForm(doc).None?
  {
    NamedEmpty(Descendants(doc), "form");
  }

  /** Every field this crate finds, the client's helper finds too. */
  lemma {:induction false} FieldsWithin(form: Node)
    ensures MapFormFields(form).Keys <= FormUtil.FormFields(form).Keys
  {
    forall k | k in MapFormFields(form) ensures k in FormUtil.FormFields(form) {
      MapFormFieldsSpec(form, k);
      FormUtil.FormFieldsSpec(form, k);
    }
  }

  /** Where every named input has a value, the two extractors agree. */
  lemma {:induction false} AgreeWhenValued(form: Node)
    requires forall n :: n in FormUtil.Inputs(form) && FormUtil.NameOf(n).Some? ==> FormUtil.ValueOf(n).Some?
    ensures MapFormFields(form) == FormUtil.FormFields(form)
  {
    var ins := FormUtil.Inputs(form);
    assert forall i :: 0 <= i < |ins| ==> Field(ins[i]) == FormUtil.Field(ins[i]) by {
      forall i | 0 <= i < |ins| ensures Field(ins[i]) == FormUtil.Field(ins[i]) {
        assert ins[i] in ins;
      }
    }
    SameFields(ins);
  }

  lemma {:induction false} SameFields(ins: seq<Node>)
    requires forall i :: 0 <= i < |ins| ==> Field(ins[i]) == FormUtil.Field(ins[i])
    ensures FilterMap(ins, Field) == FilterMap(ins, FormUtil.Field)
    decreases |ins|
  {
    if |ins| > 0 {
      SameFields(ins[..|ins| - 1]);
    }
  }

  /** On the documented example, the value-less "email" input is not a field here, unlike in the client. */
  lemma ExampleDiffers()
    ensures ScrapeForm(FormUtil.ExampleDocument()) == Some(map["username" := "Prefilled"])
    ensures FormUtil.ScrapeForm(FormUtil.ExampleDocument()) == Some(map["email" := "", "username" := "Prefilled"])
  {
    var email := Element("input", [("type", "email"), ("name", "email")], []);
    var username := Element("input", [("type", "text"), ("name", "username"), ("value", "Prefilled")], []);
    var submit := Element("input", [("type", "submit")], []);
    var form := Element("form", [], [email, username, submit]);
    FormUtil.SingleFormTree(FormUtil.ExampleDocument(), form, [email, username, submit]);
    FormUtil.ExampleAttrs(email, username, submit);
    FormUtil.ExampleFields();
    ExampleInputs(email, username, submit);
  }

  lemma ExampleInputs(email: Node, username: Node, submit: Node)
    requires FormUtil.ValueOf(email) == None
    requires FormUtil.NameOf(username) == Some("username") && FormUtil.ValueOf(username) == Some("Prefilled")
    requires FormUtil.NameOf(submit) == None
    ensures Collect(FilterMap([email, username, submit], Field)) == map["username" := "Prefilled"]
  {
    var ins := [email, username, submit];
    assert ins[..2][..1] == ins[..1];
    assert ins[..1][..0] == [];
    assert FilterMap(ins[..1], Field) == [];
    assert FilterMap(ins[..2], Field) == [("username", "Prefilled")];
    assert FilterMap(ins, Field) == [("username", "Prefilled")];
    assert [("username", "Prefilled")][..0] == [];
  }
}
