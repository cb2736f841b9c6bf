/**
 * The list of bindings one LED carries, and the two things the component does
 * with it: replace the entries of one entity (`std::replace_if`) and resolve
 * the colour the LED shows ("last active entry wins, else the off colour").
 */
module Bindings {
  import opened ColorMath

  /** One `(entity id, colour, state)` tuple of an LED's list. */
  datatype Binding = Binding(entityId: string, color: Color, active: bool)

  /** The entries whose entity id is `id`, all replaced by `nb`; everything else, and the order, kept. */
  function ReplaceAll(list: seq<Binding>, id: string, nb: Binding): (r: seq<Binding>)
    ensures |r| == |list|
    ensures forall i | 0 <= i < |list| :: r[i] == if list[i].entityId == id then nb else list[i]
  {
    if list == [] then []
    else [if list[0].entityId == id then nb else list[0]] + ReplaceAll(list[1..], id, nb)
  }

  /**
   * `std::replace_if(list.begin(), list.end(), [id](e){ return get<0>(e) == id; }, nb)`:
   * one pass over the list, overwriting each matching entry where it stands.
   */
  method ReplaceIf(list: seq<Binding>, id: string, nb: Binding) returns (out: seq<Binding>)
    ensures out == ReplaceAll(list, id, nb)
  {
    out := list;
    var i := 0;
    while i < |out|
      invariant 0 <= i <= |out| == |list|
      invariant forall j | 0 <= j < i :: out[j] == if list[j].entityId == id then nb else list[j]
      invariant out[i..] == list[i..]
    {
      if out[i].entityId == id {
        out := out[i := nb];
      }
      i := i + 1;
    }
  }

  /** When no entry has the entity id, replacing changes nothing: nothing is appended. */
  lemma {:induction false} ReplaceAbsent(list: seq<Binding>, id: string, nb: Binding)
    requires forall i | 0 <= i < |list| :: list[i].entityId != id
    ensures ReplaceAll(list, id, nb) == list
  {
    if list != [] {
      ReplaceAbsent(list[1..], id, nb);
    }
  }

  /** Replacing twice with the same entry is the same as replacing once. */
  lemma ReplaceIdempotent(list: seq<Binding>, id: string, nb: Binding)
    ensures ReplaceAll(ReplaceAll(list, id, nb), id, nb) == ReplaceAll(list, id, nb)
  {
  }

  /** The entity ids of a list. */
  function Ids(list: seq<Binding>): (ids: seq<string>)
    ensures |ids| == |list|
  {
    seq(|list|, i requires 0 <= i < |list| => list[i].entityId)
  }

  /** At most one entry per entity id. */
  predicate UniqueIds(list: seq<Binding>) {
    forall i, j | 0 <= i < j < |list| :: list[i].entityId != list[j].entityId
  }

  /** Replacing with an entry of the same entity keeps every id in place, so uniqueness is kept too. */
  lemma ReplaceKeepsIds(list: seq<Binding>, id: string, nb: Binding)
    requires nb.entityId == id
    ensures Ids(ReplaceAll(list, id, nb)) == Ids(list)
    ensures UniqueIds(list) ==> UniqueIds(ReplaceAll(list, id, nb))
  {
    var r := ReplaceAll(list, id, nb);
    assert forall i | 0 <= i < |list| :: r[i].entityId == list[i].entityId;
  }

  /** Whether an entry takes part in resolution: it is on, or every entry is forced on. */
  predicate Lit(b: Binding, force: bool) {
    force || b.active
  }

  /**
   * The colour an LED resolves to: the colour of the last entry that is lit,
   * or `offColor` when none is.
   */
  function Resolve(list: seq<Binding>, force: bool, offColor: Color): Color {
    if list == [] then offColor
    else if Lit(list[|list| - 1], force) then list[|list| - 1].color
    else Resolve(list[..|list| - 1], force, offColor)
  }

  /**
   * The loop of `on_homeassistant_state` over the LED's list: start from the off
   * colour and overwrite it with every lit entry, front to back.
   */
  method ResolveColor(list: seq<Binding>, force: bool, offColor: Color) returns (useColor: Color)
    ensures useColor == Resolve(list, force, offColor)
  {
    useColor := offColor;
    for i := 0 to |list|
      invariant useColor == Resolve(list[..i], force, offColor)
    {
      if force || list[i].active {
        useColor := list[i].color;
      }
      assert list[..i + 1][..i] == list[..i];
    }
    assert list[..|list|] == list;
  }

  /** The lit entry with the largest index decides the colour. */
  lemma {:induction false} ResolveLastLit(list: seq<Binding>, force: bool, offColor: Color, k: nat)
    requires k < |list| && Lit(list[k], force)
    requires forall j | k < j < |list| :: !Lit(list[j], force)
    ensures Resolve(list, force, offColor) == list[k].color
  {
    if k < |list| - 1 {
      var front := list[..|list| - 1];
      ResolveLastLit(front, force, offColor, k);
    }
  }

  /** With no lit entry, the LED shows the off colour. */
  lemma {:induction false} ResolveNoneLit(list: seq<Binding>, force: bool, offColor: Color)
    requires forall j | 0 <= j < |list| :: !Lit(list[j], force)
    ensures Resolve(list, force, offColor) == offColor
  {
    if list != [] {
      ResolveNoneLit(list[..|list| - 1], force, offColor);
    }
  }

  /**
   * Conversely, the resolved colour is the off colour or the colour of a lit
   * entry after which nothing is lit.
   */
  lemma {:induction false} ResolveIsLastLitOrOff(list: seq<Binding>, force: bool, offColor: Color)
    ensures var c := Resolve(list, force, offColor);
      (c == offColor && forall j | 0 <= j < |list| :: !Lit(list[j], force)) ||
      (exists k | 0 <= k < |list| :: Lit(list[k], force) && c == list[k].color &&
         forall j | k < j < |list| :: !Lit(list[j], force))
  {
    if list != [] {
      var last := |list| - 1;
      var c := Resolve(list, force, offColor);
      if Lit(list[last], force) {
        assert Lit(list[last], force) && c == list[last].color;
      } else {
        var front := list[..last];
        ResolveIsLastLitOrOff(front, force, offColor);
        assert c == Resolve(front, force, offColor);
        assert forall j | 0 <= j < last :: front[j] == list[j];
        if !(c == offColor && forall j | 0 <= j < |front| :: !Lit(front[j], force)) {
          var k :| 0 <= k < |front| && Lit(front[k], force) && c == front[k].color &&
            forall j | k < j < |front| :: !Lit(front[j], force);
          assert Lit(list[k], force) && c == list[k].color;
        }
      }
    }
  }

  /** With every entry forced on, a non-empty list shows its last entry's colour. */
  lemma ResolveForced(list: seq<Binding>, offColor: Color)
    requires list != []
    ensures Resolve(list, true, offColor) == list[|list| - 1].color
  {
  }

  /**
   * What `redraw` does to one LED's list: it re-delivers the first entry, so
   * every entry with the first entry's entity id becomes a copy of it.
   */
  function RedrawList(list: seq<Binding>): seq<Binding> {
    if list == [] then [] else ReplaceAll(list, list[0].entityId, list[0])
  }

  /** With unique entity ids, redrawing leaves the list as it was. */
  lemma RedrawKeepsUniqueList(list: seq<Binding>)
    requires UniqueIds(list)
    ensures RedrawList(list) == list
  {
    if list != [] {
      var r := RedrawList(list);
      assert forall i | 0 <= i < |list| :: r[i] == list[i] by {
        forall i | 0 <= i < |list| ensures r[i] == list[i] {
          if i > 0 {
            assert list[0].entityId != list[i].entityId;
          }
        }
      }
    }
  }
}
