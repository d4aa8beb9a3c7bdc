/** `fillIn`: copying a record into the like-named controls of a form. */
module Forms {

  /** A form as the values of its named controls. */
  type Form = map<string, string>

  /** Walks the record's fields in an unspecified order, as `for ... in`
      does, and writes each one into the control of that name when the form
      has one; fields without a control are ignored and controls without a
      field keep their value. */
  method FillIn(form: Form, data: map<string, string>) returns (r: Form)
    ensures r.Keys == form.Keys
    ensures forall k :: k in form && k in data ==> r[k] == data[k]
    ensures forall k :: k in form && k !in data ==> r[k] == form[k]
  {
    r := form;
    var todo := data.Keys;
    while todo != {}
      invariant todo <= data.Keys
      invariant r.Keys == form.Keys
      invariant forall k :: k in form && k in data && k !in todo ==> r[k] == data[k]
      invariant forall k :: k in form && (k !in data || k in todo) ==> r[k] == form[k]
      decreases todo
    {
      var field :| field in todo;
      if field in r {
        r := r[field := data[field]];
      }
      todo := todo - {field};
    }
  }
}
