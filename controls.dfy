/** The "Types to show" checkboxes and the list of node types they exclude
    (`nodeTypesToRemove`, `undefined` until the first checkbox is cleared). */
module Controls {
  import opened Wrappers
  import opened Sequences

  /** The keys of the `nodeTypes` object, one checkbox each, in declaration order. */
  const NodeTypes: seq<string> := ["function", "stateVariable", "localVariable", "contract"]

  /** `nodeTypesToRemove?.includes(t)`: an undefined list excludes nothing. */
  predicate Excluded(remove: Option<seq<string>>, t: string) {
    remove.Some? && t in remove.value
  }

  /** `list.filter((x) => x !== t)`: every occurrence of `t` goes, every other entry stays,
      as often as it was there and in its order. */
  function RemoveAll(list: seq<string>, t: string): (r: seq<string>)
    ensures IsSubsequence(r, list)
    ensures multiset(r)[t] == 0
    ensures forall u :: u != t ==> multiset(r)[u] == multiset(list)[u]
  {
    if list == [] then []
    else
      var rest := RemoveAll(list[1..], t);
      assert list == [list[0]] + list[1..];
      if list[0] == t then rest
      else
        assert ([list[0]] + rest)[1..] == rest;
        [list[0]] + rest
  }

  /** Clearing a checkbox: `[...(nodeTypesToRemove || []), t]`. */
  function Uncheck(remove: Option<seq<string>>, t: string): Option<seq<string>> {
    Some(remove.GetOr([]) + [t])
  }

  /** Ticking a checkbox: `nodeTypesToRemove?.filter((x) => x !== t)`; an undefined list
      stays undefined. */
  function Check(remove: Option<seq<string>>, t: string): Option<seq<string>> {
    match remove
    case None => None
    case Some(list) => Some(RemoveAll(list, t))
  }

  /** The checkbox `onChange` handler, given the box's new `checked` state. */
  function Toggle(remove: Option<seq<string>>, t: string, checked: bool): Option<seq<string>> {
    if !checked then Uncheck(remove, t) else Check(remove, t)
  }

  /** After a click the checkbox (`checked={!includes(t)}`) shows the state that was clicked. */
  lemma ToggleShowsClickedState(remove: Option<seq<string>>, t: string, checked: bool)
    ensures !Excluded(Toggle(remove, t, checked), t) == checked
  {
  }

  /** A click on one checkbox leaves whether every other type is excluded as it was. */
  lemma ToggleKeepsOtherTypes(remove: Option<seq<string>>, t: string, checked: bool, u: string)
    requires u != t
    ensures Excluded(Toggle(remove, t, checked), u) == Excluded(remove, u)
  {
    if checked && remove.Some? {
      var r := RemoveAll(remove.value, t);
      assert multiset(r)[u] == multiset(remove.value)[u];
      assert u in r <==> multiset(r)[u] > 0;
      assert u in remove.value <==> multiset(remove.value)[u] > 0;
    }
  }

  /** Clearing and then ticking the same box leaves exactly the other exclusions in place,
      whether or not `t` had been excluded before. */
  lemma UncheckThenCheck(remove: Option<seq<string>>, t: string, u: string)
    ensures Excluded(Check(Uncheck(remove, t), t), u) == (u != t && Excluded(remove, u))
  {
    var list := remove.GetOr([]) + [t];
    var r := RemoveAll(list, t);
    assert u in r <==> multiset(r)[u] > 0;
    assert multiset(list) == multiset(remove.GetOr([])) + multiset{t};
    if u != t {
      assert u in remove.GetOr([]) <==> multiset(remove.GetOr([]))[u] > 0;
    }
  }
}
