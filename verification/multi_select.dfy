/**
 * The selection list of the `MultiSelect` form element: `select` toggles a
 * value, `remove` drops it, and each hands the new list to `onChange`.
 */
module MultiSelect {

  /** One choice offered by the dropdown. */
  datatype SelectOption = SelectOption(value: string, text: string)

  /** `s.filter(item => item !== v)` */
  function Without(s: seq<string>, v: string): (r: seq<string>)
    ensures v !in r
    ensures forall x :: x in r <==> x in s && x != v
    ensures multiset(r) == multiset(s)[v := 0]
    ensures v !in s ==> r == s
  {
    if s == [] then []
    else
      assert s == [s[0]] + s[1..];
      if s[0] == v then Without(s[1..], v) else [s[0]] + Without(s[1..], v)
  }

  /** `select(v)`: drop `v` when it is selected, append it otherwise. */
  function Toggle(s: seq<string>, v: string): (r: seq<string>)
    ensures v in r <==> v !in s
    ensures forall x :: x != v ==> (x in r <==> x in s)
  {
    if v in s then Without(s, v) else s + [v]
  }

  /** Removing preserves order: dropping from a concatenation drops from each part. */
  lemma {:induction false} WithoutAppend(a: seq<string>, b: seq<string>, v: string)
    ensures Without(a + b, v) == Without(a, v) + Without(b, v)
  {
    if a == [] {
      assert a + b == b;
    } else {
      assert (a + b)[1..] == a[1..] + b;
      WithoutAppend(a[1..], b, v);
    }
  }

  /** Selecting an absent value appends it and leaves the rest as it was. */
  lemma ToggleAbsentAppends(s: seq<string>, v: string)
    requires v !in s
    ensures Toggle(s, v) == s + [v]
  {
  }

  /** Selecting an absent value twice gives back the original list. */
  lemma ToggleTwiceRestores(s: seq<string>, v: string)
    requires v !in s
    ensures Toggle(Toggle(s, v), v) == s
  {
    WithoutAppend(s, [v], v);
    assert Without([v], v) == [];
  }

  /** A list without duplicates. */
  ghost predicate NoDuplicates(s: seq<string>) {
    forall i, j :: 0 <= i < j < |s| ==> s[i] != s[j]
  }

  /** Removing keeps a list free of duplicates. */
  lemma {:induction false} WithoutKeepsNoDuplicates(s: seq<string>, v: string)
    requires NoDuplicates(s)
    ensures NoDuplicates(Without(s, v))
  {
    if s != [] {
      WithoutKeepsNoDuplicates(s[1..], v);
      var rest := Without(s[1..], v);
      assert s[0] !in s[1..];
      assert s[0] !in rest;
    }
  }

  /** Toggling keeps a list free of duplicates. */
  lemma ToggleKeepsNoDuplicates(s: seq<string>, v: string)
    requires NoDuplicates(s)
    ensures NoDuplicates(Toggle(s, v))
  {
    if v in s {
      WithoutKeepsNoDuplicates(s, v);
    }
  }

  /** The chip label of a selected value: the first option with that value supplies the text, else the value itself. */
  function ChipLabel(options: seq<SelectOption>, value: string): (r: string)
    ensures (forall i :: 0 <= i < |options| ==> options[i].value != value) ==> r == value
    ensures (exists i :: 0 <= i < |options| && options[i].value == value) ==>
      exists i :: 0 <= i < |options| && options[i].value == value && r == options[i].text &&
        forall j :: 0 <= j < i ==> options[j].value != value
  {
    if options == [] then value
    else if options[0].value == value then options[0].text
    else
      var r := ChipLabel(options[1..], value);
      assert (exists i :: 0 <= i < |options| && options[i].value == value) ==>
        exists i :: 0 <= i < |options| - 1 && options[1..][i].value == value by {
        if exists i :: 0 <= i < |options| && options[i].value == value {
          var i :| 0 <= i < |options| && options[i].value == value;
          assert options[1..][i - 1].value == value;
        }
      }
      assert (exists i :: 0 <= i < |options| - 1 && options[1..][i].value == value) ==>
        exists i :: 0 <= i < |options| && options[i].value == value && r == options[i].text &&
          forall j :: 0 <= j < i ==> options[j].value != value by {
        if exists i :: 0 <= i < |options| - 1 && options[1..][i].value == value {
          var i :| 0 <= i < |options| - 1 && options[1..][i].value == value && r == options[1..][i].text &&
            forall j :: 0 <= j < i ==> options[1..][j].value != value;
          assert forall j :: 0 <= j < i + 1 ==> options[j].value != value by {
            forall j | 0 <= j < i + 1 ensures options[j].value != value {
              if j > 0 {
                assert options[j] == options[1..][j - 1];
              }
            }
          }
        }
      }
      r
  }

  /** The component's `selected` state. */
  class Selector {
    var selected: seq<string>
    const options: seq<SelectOption>

    constructor (options: seq<SelectOption>, defaultValues: seq<string>)
      ensures this.options == options && selected == defaultValues
    {
      this.options := options;
      selected := defaultValues;
    }

    /** The effect that reloads `defaultValues` when the caller passes new ones. */
    method ResetTo(defaultValues: seq<string>)
      modifies this
      ensures selected == defaultValues
    {
      selected := defaultValues;
    }

    /** `select(value)`: copies the list, toggles `value`, stores it, and returns what `onChange` receives. */
    method Select(value: string) returns (changed: seq<string>)
      modifies this
      ensures selected == Toggle(old(selected), value)
      ensures changed == selected
    {
      var next := selected;
      if value in next {
        next := Without(next, value);
      } else {
        next := next + [value];
      }
      selected := next;
      changed := next;
    }

    /** `remove(value)`: drops every occurrence, stores the result, and returns what `onChange` receives. */
    method Remove(value: string) returns (changed: seq<string>)
      modifies this
      ensures selected == Without(old(selected), value)
      ensures changed == selected
    {
      selected := Without(selected, value);
      changed := selected;
    }

    /** The labels of the chips, one per selected value, in order. */
    function Chips(): (r: seq<string>)
      reads this
      ensures |r| == |selected|
      ensures forall i :: 0 <= i < |r| ==> r[i] == ChipLabel(options, selected[i])
      ensures forall i :: 0 <= i < |r| && (forall j :: 0 <= j < |options| ==> options[j].value != selected[i]) ==>
        r[i] == selected[i]
    {
      seq(|selected|, i requires 0 <= i < |selected| reads this => ChipLabel(options, selected[i]))
    }
  }
}
