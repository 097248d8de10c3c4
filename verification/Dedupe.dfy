/**
 Keeping the first find of each key, as a function and as the in-place compaction of
 GeminiSource.Fetch. `fix` puts an element into its canonical form; an empty key means the
 element is not valid.
 */
module Dedupe {

  datatype Rule<!C> = Rule(fix: C -> C, key: C -> string)

  function Keys<C>(cs: seq<C>, rule: Rule<C>): set<string> {
    set i | 0 <= i < |cs| :: rule.key(cs[i])
  }

  /** The first of each valid key, in canonical form and in order. */
  function FirstOfEach<C>(cs: seq<C>, rule: Rule<C>): seq<C> {
    if cs == [] then [] else Add(FirstOfEach(cs[..|cs| - 1], rule), cs[|cs| - 1], rule)
  }

  function Add<C>(kept: seq<C>, c: C, rule: Rule<C>): seq<C> {
    var fixed := rule.fix(c);
    if rule.key(fixed) == "" || rule.key(fixed) in Keys(kept, rule) then kept else kept + [fixed]
  }

  function KeyOf<C>(c: C, rule: Rule<C>): string {
    rule.key(rule.fix(c))
  }

  lemma KeysSnoc<C>(cs: seq<C>, c: C, rule: Rule<C>)
    ensures Keys(cs + [c], rule) == Keys(cs, rule) + {rule.key(c)}
  {
    var all := cs + [c];
    forall k | k in Keys(cs, rule) ensures k in Keys(all, rule) {
      var i :| 0 <= i < |cs| && rule.key(cs[i]) == k;
      assert all[i] == cs[i];
    }
    forall k | k in Keys(all, rule) ensures k in Keys(cs, rule) || k == rule.key(c) {
      var i :| 0 <= i < |all| && rule.key(all[i]) == k;
      assert i < |cs| ==> all[i] == cs[i];
    }
    assert all[|cs|] == c;
  }

  predicate Ascending(at: seq<nat>) {
    forall j, k :: 0 <= j < k < |at| ==> at[j] < at[k]
  }

  /** `kept` is `cs` at the positions `at`, in canonical form, each the first with its key. */
  ghost predicate FirstsAt<C>(cs: seq<C>, rule: Rule<C>, kept: seq<C>, at: seq<nat>) {
    && |at| == |kept| && Ascending(at)
    && forall j :: 0 <= j < |kept| ==> FirstAt(cs, rule, kept[j], at[j])
  }

  ghost predicate FirstAt<C>(cs: seq<C>, rule: Rule<C>, c: C, at: nat) {
    && at < |cs| && c == rule.fix(cs[at]) && rule.key(c) != ""
    && forall i :: 0 <= i < at ==> KeyOf(cs[i], rule) != rule.key(c)
  }

  predicate Distinct<C>(kept: seq<C>, rule: Rule<C>) {
    forall j, k :: 0 <= j < k < |kept| ==> rule.key(kept[j]) != rule.key(kept[k])
  }

  ghost predicate Covers<C>(cs: seq<C>, rule: Rule<C>, kept: seq<C>) {
    forall i :: 0 <= i < |cs| && KeyOf(cs[i], rule) != "" ==> KeyOf(cs[i], rule) in Keys(kept, rule)
  }

  lemma DistinctAdd<C>(kept: seq<C>, c: C, rule: Rule<C>)
    requires Distinct(kept, rule)
    ensures Distinct(Add(kept, c, rule), rule)
  {
    var fixed := rule.fix(c);
    if rule.key(fixed) !in Keys(kept, rule) {
      forall j | 0 <= j < |kept| ensures rule.key(kept[j]) != rule.key(fixed) {
        assert rule.key(kept[j]) in Keys(kept, rule);
      }
    }
  }

  lemma CoversAdd<C>(cs: seq<C>, kept: seq<C>, c: C, rule: Rule<C>)
    requires Covers(cs, rule, kept)
    ensures Covers(cs + [c], rule, Add(kept, c, rule))
  {
    KeysSnoc(kept, rule.fix(c), rule);
    forall i | 0 <= i < |cs + [c]| && KeyOf((cs + [c])[i], rule) != ""
      ensures KeyOf((cs + [c])[i], rule) in Keys(Add(kept, c, rule), rule)
    {
      if i < |cs| { assert (cs + [c])[i] == cs[i]; }
    }
  }

  lemma FirstAtAdd<C>(cs: seq<C>, kept: seq<C>, c: C, rule: Rule<C>)
    requires Covers(cs, rule, kept) && rule.key(rule.fix(c)) != "" && rule.key(rule.fix(c)) !in Keys(kept, rule)
    ensures FirstAt(cs + [c], rule, rule.fix(c), |cs|)
  {
    forall i | 0 <= i < |cs| ensures KeyOf((cs + [c])[i], rule) != rule.key(rule.fix(c)) {
      assert (cs + [c])[i] == cs[i];
    }
  }

  lemma FirstAtGrows<C>(cs: seq<C>, c: C, rule: Rule<C>, k: C, at: nat)
    requires FirstAt(cs, rule, k, at)
    ensures FirstAt(cs + [c], rule, k, at)
  {
    forall i | 0 <= i < at ensures KeyOf((cs + [c])[i], rule) != rule.key(k) {
      assert (cs + [c])[i] == cs[i];
    }
  }

  /**
   FirstOfEach is what its name says: the kept elements stand in order at ascending
   positions, each the first with its key, no key twice, and no valid key missing.
   */
  lemma {:induction false} FirstOfEachIsFirsts<C>(cs: seq<C>, rule: Rule<C>) returns (at: seq<nat>)
    ensures FirstsAt(cs, rule, FirstOfEach(cs, rule), at)
    ensures Distinct(FirstOfEach(cs, rule), rule) && Covers(cs, rule, FirstOfEach(cs, rule))
  {
    if cs == [] {
      at := [];
    } else {
      var before, c := cs[..|cs| - 1], cs[|cs| - 1];
      assert cs == before + [c];
      at := FirstOfEachIsFirsts(before, rule);
      var kept := FirstOfEach(before, rule);
      DistinctAdd(kept, c, rule);
      CoversAdd(before, kept, c, rule);
      forall j | 0 <= j < |kept| ensures FirstAt(cs, rule, kept[j], at[j]) {
        FirstAtGrows(before, c, rule, kept[j], at[j]);
      }
      if Add(kept, c, rule) != kept {
        FirstAtAdd(before, kept, c, rule);
        at := at + [|before|];
      }
    }
  }

  lemma {:induction false} FirstOfEachGrows<C>(cs: seq<C>, more: seq<C>, rule: Rule<C>)
    ensures FirstOfEach(cs, rule) <= FirstOfEach(cs + more, rule)
  {
    if more == [] {
      assert cs + more == cs;
    } else {
      var n := |more| - 1;
      FirstOfEachGrows(cs, more[..n], rule);
      assert (cs + more)[..|cs + more| - 1] == cs + more[..n];
    }
  }

  lemma FirstOfEachSnoc<C>(cs: seq<C>, c: C, rule: Rule<C>)
    ensures FirstOfEach(cs + [c], rule) == Add(FirstOfEach(cs, rule), c, rule)
  {
    assert (cs + [c])[..|cs|] == cs;
  }

  /** What is true of every element in canonical form is true of every kept one. */
  lemma {:induction false} FirstOfEachKeeps<C>(cs: seq<C>, rule: Rule<C>, good: C -> bool)
    requires forall i :: 0 <= i < |cs| ==> good(rule.fix(cs[i]))
    ensures forall i :: 0 <= i < |FirstOfEach(cs, rule)| ==> good(FirstOfEach(cs, rule)[i])
  {
    if cs == [] {
    } else {
      FirstOfEachKeeps(cs[..|cs| - 1], rule, good);
    }
  }

  /**
   The compaction loop, with `unique` growing in the array that is being read: nothing not
   yet read is overwritten, and the kept prefix is FirstOfEach of what was there.
   */
  method Compact<C>(a: array<C>, rule: Rule<C>) returns (kept: nat)
    modifies a
    ensures kept <= a.Length && a[..kept] == FirstOfEach(old(a[..]), rule)
    ensures a[kept..] == old(a[kept..])
  {
    ghost var all := a[..];
    var seen: set<string> := {};
    kept := 0;
    for i := 0 to a.Length
      invariant kept <= i
      invariant forall j :: kept <= j < a.Length ==> a[j] == all[j]
      invariant a[..kept] == FirstOfEach(all[..i], rule)
      invariant seen == Keys(a[..kept], rule)
    {
      assert all[..i + 1] == all[..i] + [all[i]];
      FirstOfEachSnoc(all[..i], all[i], rule);
      var candidate := rule.fix(a[i]);
      var key := rule.key(candidate);
      if key == "" || key in seen {
        continue;
      }
      seen := seen + {key};
      KeysSnoc(a[..kept], candidate, rule);
      ghost var before := a[..kept];
      a[kept] := candidate;
      kept := kept + 1;
      assert a[..kept] == before + [candidate];
    }
    assert all[..a.Length] == all;
  }
}
