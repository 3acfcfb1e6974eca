/** A session list as both client controllers receive it: an entry per session, repeats allowed. */
module SessionList {

  /** The list items of one session, in list order. */
  function ItemsOf<T>(sessions: seq<(string, T)>, id: string): (items: seq<T>)
    ensures items == [] <==> forall i | 0 <= i < |sessions| :: sessions[i].0 != id
  {
    if sessions == [] then []
    else
      var last := sessions[|sessions| - 1];
      ItemsOf(sessions[..|sessions| - 1], id) + (if last.0 == id then [last.1] else [])
  }

  /** One more list entry is one more item for its session, and none for the others. */
  lemma ItemsOfNext<T>(sessions: seq<(string, T)>, i: nat)
    requires i < |sessions|
    ensures var (id, item) := sessions[i];
      var earlier, later := ItemsOf(sessions[..i], id), ItemsOf(sessions[..i + 1], id);
      && later != [] && later[..|later| - 1] == earlier && later[|later| - 1] == item
      && forall x: string :: x != id ==> ItemsOf(sessions[..i + 1], x) == ItemsOf(sessions[..i], x)
  {
    assert sessions[..i + 1][..i] == sessions[..i];
  }
}
