/** The collapsible book and store forms and their toggle buttons. */
module Chrome {

  datatype FormKind = BookForm | StoreForm

  /** A form's `collapsed` class and the text of the button that toggles it. */
  datatype Pane = Pane(collapsed: bool, caption: string)

  function CollapsedLabel(k: FormKind): string {
    match k
    case BookForm => "New Book"
    case StoreForm => "New Store"
  }

  function ExpandedLabel(k: FormKind): string {
    match k
    case BookForm => "Hide Book Form"
    case StoreForm => "Hide Store Form"
  }

  /** The button text agrees with the form's visibility. */
  predicate Labelled(k: FormKind, p: Pane) {
    p.caption == if p.collapsed then CollapsedLabel(k) else ExpandedLabel(k)
  }

  /** `toggleBookForm` / `toggleStoreForm`: flip the class, then relabel the
      button from the class's new state. */
  function Toggle(k: FormKind, p: Pane): (r: Pane)
    ensures r.collapsed == !p.collapsed
    ensures r.collapsed ==> r.caption == CollapsedLabel(k)
    ensures !r.collapsed ==> r.caption == ExpandedLabel(k)
  {
    var hidden := !p.collapsed;
    Pane(hidden, if hidden then CollapsedLabel(k) else ExpandedLabel(k))
  }

  /** What Escape does to one form: toggle it only when it is expanded. */
  function Dismiss(k: FormKind, p: Pane): (r: Pane)
    ensures r.collapsed
    ensures p.collapsed ==> r == p
    ensures !p.collapsed ==> r.caption == CollapsedLabel(k)
  {
    if !p.collapsed then Toggle(k, p) else p
  }

  /** Toggling restores a form whose button text was in step with it. */
  lemma ToggleTwice(k: FormKind, p: Pane)
    requires Labelled(k, p)
    ensures Toggle(k, Toggle(k, p)) == p
  {
  }

  /** A toggle always leaves the button text in step with the form. */
  lemma ToggleLabels(k: FormKind, p: Pane)
    ensures Labelled(k, Toggle(k, p))
  {
  }
}
