/**
 * The `add_class` template filter of website/templatetags/form_utils.py.
 *
 * A form field is either a bound field, whose widget has an attribute map
 * and whose rendering may or may not raise, or some other value, on which
 * the attribute lookups raise. The rendered widget is represented by the
 * attribute map passed to `as_widget`.
 */
module FormUtils {
  import opened Text

  /** The value the filter is applied to. */
  datatype Field =
    | BoundField(widgetAttrs: map<string, string>, renders: bool)
    | OtherValue

  /** `field.as_widget(attrs=...)`, or the field itself after an exception. */
  datatype FilterResult = AsWidget(attrs: map<string, string>) | Unchanged(field: Field)

  /** The `class` attribute: the existing classes, one space, the new class. */
  function ComposeClass(existing: string, cssClass: string): (cls: string)
    ensures existing == "" ==> cls == cssClass
    ensures existing != "" ==>
      |cls| == |existing| + 1 + |cssClass| && existing <= cls && cls[|existing|] == ' ' && cls[|existing| + 1..] == cssClass
  {
    if existing != "" then existing + " " + cssClass else cssClass
  }

  /** `widget.attrs.get('class', '')`. */
  function ExistingClass(attrs: map<string, string>): string
  {
    if "class" in attrs then attrs["class"] else ""
  }

  /** `add_class(field, css_class)`. */
  function AddClass(field: Field, cssClass: string): (r: FilterResult)
    ensures r.AsWidget? <==> field.BoundField? && field.renders
    ensures r.Unchanged? ==> r.field == field
    ensures r.AsWidget? ==> r.attrs.Keys == {"class"}
    ensures r.AsWidget? ==> r.attrs["class"] == ComposeClass(ExistingClass(field.widgetAttrs), cssClass)
  {
    match field
    case OtherValue => Unchanged(field)
    case BoundField(widgetAttrs, renders) =>
      var attrs := map["class" := ComposeClass(ExistingClass(widgetAttrs), cssClass)];
      if renders then AsWidget(attrs) else Unchanged(field)
  }

  /**
   * Read as a space-separated class list, the result is the existing list
   * with the new class appended (or the new class alone).
   */
  lemma ComposeClassAppendsToken(existing: string, cssClass: string)
    ensures existing != "" ==> Split(ComposeClass(existing, cssClass), ' ') == Split(existing, ' ') + Split(cssClass, ' ')
    ensures existing == "" ==> Split(ComposeClass(existing, cssClass), ' ') == Split(cssClass, ' ')
  {
    if existing != "" {
      SplitConcat(existing, cssClass, ' ');
    }
  }

  /** Adding a class that is already present repeats it: nothing is de-duplicated. */
  lemma AddClassRepeats(attrs: map<string, string>, cssClass: string)
    requires cssClass != ""
    ensures AddClass(BoundField(attrs["class" := cssClass], true), cssClass)
      == AsWidget(map["class" := cssClass + " " + cssClass])
  {
  }

  /** A widget with no (or an empty) class gets exactly the new class. */
  lemma AddClassToBareWidget(attrs: map<string, string>, cssClass: string)
    requires "class" !in attrs || attrs["class"] == ""
    ensures AddClass(BoundField(attrs, true), cssClass) == AsWidget(map["class" := cssClass])
  {
  }

  /** Whenever an exception is raised the field comes back untouched. */
  lemma ExceptionReturnsField(field: Field, cssClass: string)
    requires field == OtherValue || (field.BoundField? && !field.renders)
    ensures AddClass(field, cssClass) == Unchanged(field)
  {
  }
}
