/**
 * Elements bound to translation keys and what `updatePageContent` writes
 * into them: text content for `data-key`, the placeholder for
 * `data-key-placeholder`.
 */
module Content {
  import opened Wrappers
  import opened Translation

  /** A bound element: its key path and its current text (or placeholder). */
  datatype Bound = Bound(key: string, content: string)

  /** What assigning a non-string object to `textContent` or `placeholder`
      displays. */
  const ObjectText := "[object Object]"

  /** The string a truthy lookup outcome becomes once assigned. */
  function Rendered(v: Lookup): string {
    match v
    case Text(s) => s
    case Subtree(_) => ObjectText
    case Absent => ""
  }

  /** One element after `if (translation) element.textContent = translation`. */
  function ApplyTranslation(e: Bound, dict: Tree): (r: Bound)
    ensures r.key == e.key
    ensures r != e ==> Truthy(GetNestedValue(dict, e.key))
  {
    var translation := GetNestedValue(dict, e.key);
    if Truthy(translation) then e.(content := Rendered(translation)) else e
  }

  /** Every element of a list after the `forEach`. */
  function Translated(elems: seq<Bound>, dict: Tree): (r: seq<Bound>)
    ensures |r| == |elems|
    ensures forall i :: 0 <= i < |elems| ==> r[i].key == elems[i].key
  {
    seq(|elems|, i requires 0 <= i < |elems| => ApplyTranslation(elems[i], dict))
  }

  /** An element whose key path has a missing segment keeps its content. */
  lemma MissingKeyKeepsContent(elems: seq<Bound>, dict: Tree, i: nat)
    requires i < |elems|
    requires Descend(dict, Split(elems[i].key)).None?
    ensures Translated(elems, dict)[i] == elems[i]
  {
    MissingSegmentGivesNoValue(dict, elems[i].key);
  }

  /** An element whose key path resolves to an empty string keeps its content. */
  lemma EmptyTextKeepsContent(elems: seq<Bound>, dict: Tree, i: nat)
    requires i < |elems|
    requires Descend(dict, Split(elems[i].key)) == Some(Leaf(""))
    ensures Translated(elems, dict)[i] == elems[i]
  {
    WalkFollowsDescend(dict, Split(elems[i].key));
  }

  /** An element whose key path resolves to a non-empty string shows it. */
  lemma ResolvedKeyShowsText(elems: seq<Bound>, dict: Tree, i: nat, s: string)
    requires i < |elems|
    requires Descend(dict, Split(elems[i].key)) == Some(Leaf(s)) && s != ""
    ensures Translated(elems, dict)[i] == Bound(elems[i].key, s)
  {
    WalkFollowsDescend(dict, Split(elems[i].key));
  }

  /** An element whose key path names a nested object shows the object's
      string form. */
  lemma SubtreeKeyShowsObjectText(elems: seq<Bound>, dict: Tree, i: nat, m: map<string, Tree>)
    requires i < |elems|
    requires Descend(dict, Split(elems[i].key)) == Some(Node(m))
    ensures Translated(elems, dict)[i] == Bound(elems[i].key, ObjectText)
  {
    WalkFollowsDescend(dict, Split(elems[i].key));
  }

  /** Applying the same dictionary twice is the same as applying it once. */
  lemma TranslatedIdempotent(elems: seq<Bound>, dict: Tree)
    ensures Translated(Translated(elems, dict), dict) == Translated(elems, dict)
  {
  }

  /** Where every key resolves to a truthy value, the result does not depend
      on what the elements showed before. */
  lemma FullyResolvedForgetsHistory(elems: seq<Bound>, other: seq<Bound>, dict: Tree)
    requires |other| == |elems|
    requires forall i :: 0 <= i < |elems| ==> other[i].key == elems[i].key
    requires forall i :: 0 <= i < |elems| ==> Descend(dict, Split(elems[i].key)).Some?
    requires forall i :: 0 <= i < |elems| ==> Truthy(Of(Descend(dict, Split(elems[i].key)).value))
    ensures Translated(other, dict) == Translated(elems, dict)
  {
    forall i | 0 <= i < |elems|
      ensures Translated(other, dict)[i] == Translated(elems, dict)[i]
    {
      assert GetNestedValue(dict, other[i].key) == GetNestedValue(dict, elems[i].key);
    }
  }

  /** Switching to another locale and back restores the rendered elements
      when every key resolves in the locale returned to. */
  lemma SwitchBackRestores(page: seq<Bound>, first: Tree, second: Tree)
    requires forall i :: 0 <= i < |page| ==> Descend(first, Split(page[i].key)).Some?
    requires forall i :: 0 <= i < |page| ==> Truthy(Of(Descend(first, Split(page[i].key)).value))
    ensures Translated(Translated(Translated(page, first), second), first) == Translated(page, first)
  {
    FullyResolvedForgetsHistory(page, Translated(Translated(page, first), second), first);
  }

  /** Without that condition switching back need not restore: an element
      whose key is missing from the first locale but resolves in the second
      keeps the second locale's text. */
  lemma SwitchBackMayNotRestore(page: seq<Bound>, first: Tree, second: Tree, i: nat, s: string)
    requires i < |page|
    requires Descend(first, Split(page[i].key)).None?
    requires Descend(second, Split(page[i].key)) == Some(Leaf(s))
    requires s != "" && s != page[i].content
    ensures Translated(Translated(Translated(page, first), second), first)[i].content == s
    ensures Translated(Translated(Translated(page, first), second), first) != Translated(page, first)
  {
    var once := Translated(page, first);
    MissingKeyKeepsContent(page, first, i);
    ResolvedKeyShowsText(once, second, i, s);
    var twice := Translated(once, second);
    MissingKeyKeepsContent(twice, first, i);
    assert Translated(twice, first)[i] != once[i];
  }
}
