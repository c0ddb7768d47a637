/**
 * The slice of a page element that the handlers in js/main.js read or write:
 * its class list, its text content, the two inline style properties the
 * diagram highlighter sets, and its `href` attribute.
 */
module Dom {
  import opened Wrappers

  /** The class list after `classList.toggle(c)`. */
  function Toggled(classes: set<string>, c: string): (r: set<string>)
    ensures c in r <==> c !in classes
    ensures r - {c} == classes - {c}
  {
    if c in classes then classes - {c} else classes + {c}
  }

  lemma ToggledTwice(classes: set<string>, c: string)
    ensures Toggled(Toggled(classes, c), c) == classes
  {
  }

  class Element {
    /** `classList`, as a set of class names. */
    var classes: set<string>
    /** `textContent` (or the `innerHTML` the handlers assign). */
    var text: string
    /** `style.borderColor` and `style.boxShadow`; "" when not set inline. */
    var borderColor: string
    var boxShadow: string
    /** `getAttribute('href')`: None when the attribute is missing. */
    const href: Option<string>

    constructor (classes: set<string>, href: Option<string>, text: string)
      ensures this.classes == classes && this.href == href && this.text == text
      ensures borderColor == "" && boxShadow == ""
    {
      this.classes := classes;
      this.href := href;
      this.text := text;
      borderColor := "";
      boxShadow := "";
    }

    predicate Has(c: string)
      reads this
    {
      c in classes
    }

    /** `classList.toggle(c)`. */
    method Toggle(c: string)
      modifies this`classes
      ensures classes == Toggled(old(classes), c)
    {
      classes := Toggled(classes, c);
    }

    /** `classList.add(c)`. */
    method Add(c: string)
      modifies this`classes
      ensures classes == old(classes) + {c}
    {
      classes := classes + {c};
    }

    /** `classList.remove(c)`. */
    method Remove(c: string)
      modifies this`classes
      ensures classes == old(classes) - {c}
    {
      classes := classes - {c};
    }
  }
}
