/** `uuidv4()` as a fresh-id supply: a counter threaded through the pipeline,
    the n-th call answering `FreshId(n)`. Distinct calls give distinct ids,
    and an id is never blank: the ids here are a fixed prefix followed by n
    tally marks. That a new id also differs from every id already in use is
    the hypothesis `FreshFrom`. The random 36-character text of a real
    version-4 uuid is not modelled. */
module FreshIds {
  import opened Options
  import opened JsText

  const Prefix: string := "uuid-"

  /** The id handed out by the n-th call of `uuidv4()`. */
  function FreshId(n: nat): (id: string)
    ensures |id| == |Prefix| + n
  {
    Prefix + seq(n, _ => '1')
  }

  /** A fresh id is never blank, so it always passes a `!x?.trim()` test as set. */
  lemma FreshIdNotBlank(n: nat)
    ensures !IsBlank(FreshId(n))
  {
    assert FreshId(n)[0] == 'u';
  }

  /** Two calls with different counters never hand out the same id. */
  lemma FreshIdInjective(m: nat, n: nat)
    requires FreshId(m) == FreshId(n)
    ensures m == n
  {
  }

  /** Every id handed out from counter `n` on avoids `used`. A real
      `uuidv4()` collides with an id already in use only with negligible
      probability; the counter model states that assumption explicitly, as
      a hypothesis of the lemmas that compare minted ids with existing ones. */
  ghost predicate FreshFrom(n: nat, used: set<string>) {
    forall m: nat :: m >= n ==> FreshId(m) !in used
  }

  /** An upper bound on the lengths of the strings in `used`. */
  ghost function MaxLength(used: set<string>): (k: nat)
    ensures forall s :: s in used ==> |s| <= k
    decreases used
  {
    if used == {} then 0
    else
      var s :| s in used;
      var k := MaxLength(used - {s});
      if |s| > k then |s| else k
  }

  /** Whatever finite set of ids is already in use, some counter value
      starts a supply that avoids all of them. */
  lemma FreshFromExists(used: set<string>) returns (n: nat)
    ensures FreshFrom(n, used)
  {
    n := MaxLength(used);
  }

  /** How many of the slots have no value yet and will draw a fresh id. */
  function MissingCount(slots: seq<Option<string>>): (c: nat)
    ensures c <= |slots|
  {
    if |slots| == 0 then 0
    else MissingCount(slots[..|slots| - 1]) + (if slots[|slots| - 1].None? then 1 else 0)
  }

  /** Fill each empty slot with a fresh id, in order, starting at counter `n`;
      a slot that already holds a value keeps it. This is the shape of every
      `x || uuidv4()` loop of the pipeline. */
  function Mint(slots: seq<Option<string>>, n: nat): (ids: seq<string>)
    ensures |ids| == |slots|
  {
    if |slots| == 0 then []
    else
      var init := slots[..|slots| - 1];
      var last := slots[|slots| - 1];
      Mint(init, n) + [if last.Some? then last.value else FreshId(n + MissingCount(init))]
  }

  /** A slot with a value keeps it; an empty slot gets the fresh id whose
      counter is `n` plus the number of empty slots before it. */
  lemma {:induction false} MintAt(slots: seq<Option<string>>, n: nat, i: nat)
    requires i < |slots|
    ensures slots[i].Some? ==> Mint(slots, n)[i] == slots[i].value
    ensures slots[i].None? ==> Mint(slots, n)[i] == FreshId(n + MissingCount(slots[..i]))
  {
    var init := slots[..|slots| - 1];
    if i < |slots| - 1 {
      assert init[..i] == slots[..i] && init[i] == slots[i];
      assert Mint(slots, n)[i] == Mint(init, n)[i];
      MintAt(init, n, i);
    } else {
      assert init == slots[..i];
    }
  }

  /** Counters handed to earlier slots are smaller. */
  lemma {:induction false} MissingCountMonotone(slots: seq<Option<string>>, i: nat, j: nat)
    requires i < j <= |slots| && slots[i].None?
    ensures MissingCount(slots[..i]) < MissingCount(slots[..j])
    decreases j
  {
    var p := slots[..j];
    assert p[..|p| - 1] == slots[..j - 1];
    if i < j - 1 {
      MissingCountMonotone(slots, i, j - 1);
    } else {
      assert slots[..j - 1] == slots[..i];
    }
  }

  /** Two different empty slots never receive the same fresh id. */
  lemma MintDistinct(slots: seq<Option<string>>, n: nat, i: nat, j: nat)
    requires i < j < |slots| && slots[i].None? && slots[j].None?
    ensures Mint(slots, n)[i] != Mint(slots, n)[j]
  {
    var a, b := n + MissingCount(slots[..i]), n + MissingCount(slots[..j]);
    assert FreshId(a) != FreshId(b) by {
      MissingCountMonotone(slots, i, j);
      assert |FreshId(a)| < |FreshId(b)|;
    }
    MintAt(slots, n, i);
    MintAt(slots, n, j);
  }

  /** Every fresh id minted lies in the counter range `[n, n + MissingCount(slots))`. */
  lemma MintRange(slots: seq<Option<string>>, n: nat, i: nat)
    requires i < |slots| && slots[i].None?
    ensures n <= n + MissingCount(slots[..i]) < n + MissingCount(slots)
  {
    assert slots[..|slots|] == slots;
    MissingCountMonotone(slots, i, |slots|);
  }
}
