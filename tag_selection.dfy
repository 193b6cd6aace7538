/**
 * The tag list of the post-creation form: the names selected so far and the
 * text typed into the "Add a tag" input. Adding appends the trimmed input
 * when it is non-empty and not selected yet (an exact, case-sensitive
 * comparison); removing drops every occurrence of a name.
 */
module TagSelection {
  import opened JsText

  /** The selected names together with the pending input text. */
  datatype TagInput = TagInput(selected: seq<string>, input: string)

  ghost predicate Distinct(selected: seq<string>) {
    forall i, j :: 0 <= i < j < |selected| ==> selected[i] != selected[j]
  }

  /** No name twice; every name trimmed and non-empty. */
  ghost predicate WellFormed(selected: seq<string>) {
    && Distinct(selected)
    && (forall x :: x in selected ==> x != "" && Trim(x) == x)
  }

  /**
   * `addTag`: appends `trim(input)` and clears the input when the trimmed
   * text is non-empty and not already selected; otherwise changes nothing.
   */
  function AddTag(t: TagInput): (r: TagInput)
    ensures t.selected <= r.selected && |r.selected| <= |t.selected| + 1
    ensures |r.selected| > |t.selected| <==> Trim(t.input) != "" && Trim(t.input) !in t.selected
    ensures |r.selected| > |t.selected| ==> r.selected[|t.selected|] == Trim(t.input) && r.input == ""
    ensures |r.selected| == |t.selected| ==> r == t
    ensures WellFormed(t.selected) ==> WellFormed(r.selected)
  {
    var name := Trim(t.input);
    if name != "" && name !in t.selected then
      TrimIdempotent(t.input);
      TagInput(t.selected + [name], "")
    else
      t
  }

  /** `removeTag`: keeps, in order, every selected name other than `name`. */
  function RemoveTag(selected: seq<string>, name: string): (r: seq<string>)
    ensures name !in r
    ensures forall x :: x in r <==> x in selected && x != name
    ensures |r| <= |selected|
  {
    if selected == [] then []
    else if selected[0] == name then RemoveTag(selected[1..], name)
    else [selected[0]] + RemoveTag(selected[1..], name)
  }

  /** `r` is `s` with some elements left out, the rest in their original order. */
  ghost predicate IsSubsequence(r: seq<string>, s: seq<string>)
    decreases |s|
  {
    r == [] || (s != [] && (if r[0] == s[0] then IsSubsequence(r[1..], s[1..]) else IsSubsequence(r, s[1..])))
  }

  /**
   * Removing a name keeps the other names in their order and with their
   * multiplicities, and drops every occurrence of the removed one.
   */
  lemma {:induction false} RemoveTagKeepsOthers(selected: seq<string>, name: string)
    ensures IsSubsequence(RemoveTag(selected, name), selected)
    ensures multiset(RemoveTag(selected, name)) == multiset(selected)[name := 0]
  {
    if selected != [] {
      var rest := RemoveTag(selected[1..], name);
      RemoveTagKeepsOthers(selected[1..], name);
      assert selected == [selected[0]] + selected[1..];
      if selected[0] != name {
        assert ([selected[0]] + rest)[1..] == rest;
      }
    }
  }

  lemma {:induction false} RemoveTagDistinct(selected: seq<string>, name: string)
    requires Distinct(selected)
    ensures Distinct(RemoveTag(selected, name))
  {
    if selected != [] {
      var rest := RemoveTag(selected[1..], name);
      RemoveTagDistinct(selected[1..], name);
      if selected[0] != name {
        assert selected[0] !in selected[1..];
        assert selected[0] !in rest;
        var r := [selected[0]] + rest;
        forall i, j | 0 <= i < j < |r| ensures r[i] != r[j] {
          if i == 0 {
            assert r[j] == rest[j - 1] && r[j] in rest;
          } else {
            assert r[i] == rest[i - 1] && r[j] == rest[j - 1];
          }
        }
      }
    }
  }

  /** Removing keeps the list well formed. */
  lemma RemoveTagWellFormed(selected: seq<string>, name: string)
    requires WellFormed(selected)
    ensures WellFormed(RemoveTag(selected, name))
  {
    RemoveTagDistinct(selected, name);
  }

  /** Removing a name that is not selected changes nothing. */
  lemma {:induction false} RemoveAbsentTag(selected: seq<string>, name: string)
    requires name !in selected
    ensures RemoveTag(selected, name) == selected
  {
    if selected != [] {
      RemoveAbsentTag(selected[1..], name);
      assert selected == [selected[0]] + selected[1..];
    }
  }

  /** Removing distributes over concatenation. */
  lemma {:induction false} RemoveTagAppend(a: seq<string>, b: seq<string>, name: string)
    ensures RemoveTag(a + b, name) == RemoveTag(a, name) + RemoveTag(b, name)
  {
    if a != [] {
      assert (a + b)[1..] == a[1..] + b;
      RemoveTagAppend(a[1..], b, name);
    } else {
      assert a + b == b;
    }
  }

  /** Removing the name that was just added restores the previous list. */
  lemma AddThenRemove(t: TagInput)
    requires |AddTag(t).selected| > |t.selected|
    ensures RemoveTag(AddTag(t).selected, Trim(t.input)) == t.selected
  {
    var name := Trim(t.input);
    RemoveTagAppend(t.selected, [name], name);
    RemoveAbsentTag(t.selected, name);
  }
}
