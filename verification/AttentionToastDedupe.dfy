/** The bounded toast dedupe of src/client/features/autopilot/attention-toast-dedupe.ts. */
module AttentionToastDedupe {
  import opened Wrappers

  /** `slice(-limit)`; a limit of zero keeps everything, as `slice(-0)` does. */
  function LastOf<T>(s: seq<T>, limit: nat): seq<T> {
    if limit == 0 || |s| <= limit then s else s[|s| - limit..]
  }

  /** `new Set(list)`: first occurrences, in order. */
  function FirstOccurrences(s: seq<string>): (r: seq<string>)
    ensures Distinct(r)
    ensures forall x :: x in r <==> x in s
    ensures |r| <= |s|
  {
    if s == [] then []
    else
      var r := FirstOccurrences(s[..|s| - 1]);
      if s[|s| - 1] in r then r else r + [s[|s| - 1]]
  }

  function Strings(items: seq<Option<string>>): seq<string> {
    if items == [] then []
    else (if items[0].Some? then [items[0].value] else []) + Strings(items[1..])
  }

  /** `read`: absent when nothing readable is stored; a `None` item is no string. */
  function Restore(value: Option<seq<Option<string>>>, limit: nat): seq<string> {
    if value.None? then [] else FirstOccurrences(LastOf(Strings(value.value), limit))
  }

  predicate Distinct(s: seq<string>) {
    forall i, j | 0 <= i < j < |s| :: s[i] != s[j]
  }

  /** What the dedupe may hold: no repetition, and no more than its limit unless that is zero. */
  predicate Window(ids: seq<string>, limit: nat) {
    Distinct(ids) && (limit != 0 ==> |ids| <= limit)
  }

  function Claimed(ids: seq<string>, limit: nat, id: string): seq<string> {
    if id in ids then ids else LastOf(ids + [id], limit)
  }

  /** The list as it is written to and read back from storage. */
  function AsStored(ids: seq<string>): Option<seq<Option<string>>> {
    Some(seq(|ids|, i requires 0 <= i < |ids| => Some(ids[i])))
  }

  class Dedupe {
    const limit: nat
    var ids: seq<string>
    /** What session storage holds, when it can be read. */
    var stored: Option<seq<Option<string>>>

    ghost predicate Valid()
      reads this
    {
      Window(ids, limit)
    }

    constructor (stored: Option<seq<Option<string>>>, limit: nat)
      ensures Valid() && this.limit == limit && this.stored == stored && ids == Restore(stored, limit)
    {
      this.limit, this.stored := limit, stored;
      ids := Restore(stored, limit);
    }

    /** `writable` is whether session storage accepts the write. */
    method Claim(id: string, writable: bool) returns (accepted: bool)
      requires Valid()
      modifies this
      ensures Valid()
      ensures accepted <==> id !in old(ids)
      ensures ids == Claimed(old(ids), limit, id)
      ensures stored == if accepted && writable then AsStored(ids) else old(stored)
    {
      if id in ids {
        return false;
      }
      ids := LastOf(ids + [id], limit);
      if writable {
        stored := AsStored(ids);
      }
      return true;
    }
  }

  // ----- Histories -----

  /** The answers a dedupe gives to a sequence of claims. */
  function Answers(ids: seq<string>, limit: nat, claims: seq<string>): seq<bool>
    decreases |claims|
  {
    if claims == [] then []
    else [claims[0] !in ids] + Answers(Claimed(ids, limit, claims[0]), limit, claims[1..])
  }

  function After(ids: seq<string>, limit: nat, claims: seq<string>): seq<string> {
    if claims == [] then ids
    else Claimed(After(ids, limit, claims[..|claims| - 1]), limit, claims[|claims| - 1])
  }

  /** What was held at the start, followed by every successful claim. */
  function History(ids: seq<string>, limit: nat, claims: seq<string>): seq<string> {
    if claims == [] then ids
    else
      var earlier := claims[..|claims| - 1];
      var id := claims[|claims| - 1];
      History(ids, limit, earlier) + (if id in After(ids, limit, earlier) then [] else [id])
  }

  /** The set always holds the last `limit` successful claims, in order. */
  lemma {:induction false} HoldsLastClaims(ids: seq<string>, limit: nat, claims: seq<string>)
    requires Window(ids, limit)
    ensures Window(After(ids, limit, claims), limit)
    ensures After(ids, limit, claims) == LastOf(History(ids, limit, claims), limit)
  {
    if claims != [] {
      HoldsLastClaims(ids, limit, claims[..|claims| - 1]);
    }
  }

  lemma NotAmongLast(s: seq<string>, limit: nat, i: nat)
    requires i < |s| && s[i] !in LastOf(s, limit)
    ensures |s| > limit && i < |s| - limit
  {
    var window := LastOf(s, limit);
    assert forall k | |s| - |window| <= k < |s| :: window[k - (|s| - |window|)] == s[k];
  }

  /** An id succeeds twice only with at least `limit` other successes in between. */
  lemma {:induction false} ReclaimedOnlyAfterLimitOthers(ids: seq<string>, limit: nat, claims: seq<string>, i: nat, j: nat)
    requires Window(ids, limit) && limit >= 1
    requires i < j < |History(ids, limit, claims)|
    requires History(ids, limit, claims)[i] == History(ids, limit, claims)[j]
    ensures var h := History(ids, limit, claims);
      && j - i > limit
      && Distinct(h[j - limit..j])
      && h[j] !in h[j - limit..j]
  {
    var h := History(ids, limit, claims);
    if claims == [] {
      assert false;
    } else {
      var earlier := claims[..|claims| - 1];
      HoldsLastClaims(ids, limit, earlier);
      var g := History(ids, limit, earlier);
      if j < |g| {
        ReclaimedOnlyAfterLimitOthers(ids, limit, earlier, i, j);
        assert h[j - limit..j] == g[j - limit..j];
      } else {
        assert h == g + [h[j]] && h[j] !in LastOf(g, limit);
        NotAmongLast(g, limit, i);
        assert h[j - limit..j] == LastOf(g, limit);
      }
    }
  }

  lemma {:induction false} StringsOfStored(ids: seq<string>)
    ensures Strings(AsStored(ids).value) == ids
  {
    if ids != [] {
      StringsOfStored(ids[1..]);
      assert AsStored(ids).value[1..] == AsStored(ids[1..]).value;
    }
  }

  lemma {:induction false} DistinctIsItsOwnSet(s: seq<string>)
    requires Distinct(s)
    ensures FirstOccurrences(s) == s
  {
    if s != [] {
      DistinctIsItsOwnSet(s[..|s| - 1]);
    }
  }

  /** A dedupe rebuilt from a successful write answers every later claim sequence identically. */
  lemma RebuiltAnswersAlike(ids: seq<string>, limit: nat, claims: seq<string>)
    requires Window(ids, limit)
    ensures Restore(AsStored(ids), limit) == ids
    ensures Answers(Restore(AsStored(ids), limit), limit, claims) == Answers(ids, limit, claims)
  {
    StringsOfStored(ids);
    DistinctIsItsOwnSet(ids);
  }

  /** Whatever was stored, the restored set is a window. */
  lemma RestoredIsWindow(value: Option<seq<Option<string>>>, limit: nat)
    ensures Window(Restore(value, limit), limit)
  {
  }

  /** The strings stored at the end, as many as the limit allows; items that are no strings do not count. */
  lemma StringsInTurn(items: seq<Option<string>>, item: Option<string>)
    ensures Strings([]) == []
    ensures Strings(items + [item]) == if item.Some? then Strings(items) + [item.value] else Strings(items)
  {
    if items == [] {
      assert items + [item] == [item] && [item][1..] == [];
    } else {
      StringsInTurn(items[1..], item);
      assert (items + [item])[1..] == items[1..] + [item];
    }
  }

  /** x stands in s before y does, if y does at all. */
  ghost predicate Precedes(s: seq<string>, x: string, y: string) {
    exists p | 0 <= p < |s| :: s[p] == x && forall q | 0 <= q <= p :: s[q] != y
  }

  lemma {:induction false} KeepsOrder(s: seq<string>, i: nat, j: nat)
    requires i < j < |FirstOccurrences(s)|
    ensures Precedes(s, FirstOccurrences(s)[i], FirstOccurrences(s)[j])
  {
    var n := |s| - 1;
    var x, y, earlier := FirstOccurrences(s)[i], FirstOccurrences(s)[j], FirstOccurrences(s[..n]);
    if j < |earlier| {
      KeepsOrder(s[..n], i, j);
      var p :| 0 <= p < n && s[..n][p] == x && forall q | 0 <= q <= p :: s[..n][q] != y;
      assert s[p] == x && forall q | 0 <= q <= p :: s[q] == s[..n][q];
    } else {
      assert x in s[..n] && y !in s[..n];
      var p :| 0 <= p < n && s[..n][p] == x;
      assert s[p] == x && forall q | 0 <= q <= p :: s[q] == s[..n][q];
    }
  }

  /** r has each string of s once, in the order they first occur there. */
  ghost predicate FirstOf(s: seq<string>, r: seq<string>) {
    && (forall x :: x in r <==> x in s)
    && (forall i, j | 0 <= i < j < |r| :: r[i] != r[j])
    && (forall i, j | 0 <= i < j < |r| :: Precedes(s, r[i], r[j]))
  }

  lemma SetIsFirstOf(s: seq<string>)
    ensures FirstOf(s, FirstOccurrences(s))
  {
    var r := FirstOccurrences(s);
    forall i, j | 0 <= i < j < |r| ensures Precedes(s, r[i], r[j]) {
      KeepsOrder(s, i, j);
    }
  }

  /** A restored set is the distinct ones of the last `limit` strings stored, in the order they first occur there. */
  lemma RestoredExactly(items: seq<Option<string>>, limit: nat, from: nat)
    requires from == if limit == 0 || |Strings(items)| <= limit then 0 else |Strings(items)| - limit
    ensures FirstOf(Strings(items)[from..], Restore(Some(items), limit))
    ensures Restore(None, limit) == []
  {
    var last := Strings(items)[from..];
    assert LastOf(Strings(items), limit) == last;
    SetIsFirstOf(last);
  }
}
