/** The saved-agent list of frontend/src/utils/battlechain.ts: addresses
    kept in `localStorage` as a JSON array of strings and handled as a
    case-insensitive set that remembers insertion order. */
module AgentStore {
  import opened Wrappers
  import opened Text
  import opened Json

  const StorageKey: string := "battlechain.deployedAgents"

  /** What the store can see of the browser: whether `window` exists, and
      the value `localStorage` holds under `StorageKey` (`None` is null). */
  datatype Browser = Browser(hasWindow: bool, stored: Option<string>)

  /** `normalizeAgentAddress`. */
  function Normalize(address: string): string
  {
    Lower(address)
  }

  function Lowered(xs: seq<string>): (r: seq<string>)
    ensures |r| == |xs| && forall i :: 0 <= i < |xs| ==> r[i] == Lower(xs[i])
  {
    seq(|xs|, i requires 0 <= i < |xs| => Lower(xs[i]))
  }

  predicate AllLowerCase(xs: seq<string>)
  {
    forall i :: 0 <= i < |xs| ==> IsLowerCase(xs[i])
  }

  predicate NoDup<T(==)>(xs: seq<T>)
  {
    forall i, j :: 0 <= i < j < |xs| ==> xs[i] != xs[j]
  }

  /** The strings among the elements of a parsed array, in order. */
  function StringElements(items: seq<Json>): (r: seq<string>)
    ensures |r| <= |items|
    ensures forall x :: x in r <==> JString(x) in items
  {
    if items == [] then []
    else
      var rest := StringElements(items[1..]);
      assert forall x :: JString(x) in items <==> JString(x) == items[0] || JString(x) in items[1..];
      if items[0].JString? then [items[0].text] + rest else rest
  }

  /** One element gives its text when it is a string and nothing
      otherwise. */
  lemma StringElementsSingle(v: Json)
    ensures StringElements([v]) == if v.JString? then [v.text] else []
  {
    assert [v][1..] == [];
  }

  /** The filter distributes over concatenation: strings keep their order
      and their multiplicity. */
  lemma {:induction false} StringElementsAppend(a: seq<Json>, b: seq<Json>)
    ensures StringElements(a + b) == StringElements(a) + StringElements(b)
  {
    if a == [] {
      assert a + b == b;
    } else {
      assert (a + b)[1..] == a[1..] + b;
      StringElementsAppend(a[1..], b);
    }
  }

  /** `parseStoredAgents`: null, the empty string, text that is not JSON and
      JSON that is not an array all give the empty list. */
  function ParseStored(value: Option<string>): (r: seq<string>)
    ensures value.None? || value == Some([]) ==> r == []
    ensures value.Some? && value.value != [] ==>
              r == match Parse(value.value)
                   case Some(JArray(items)) => StringElements(items)
                   case _ => []
  {
    match value
    case None => []
    case Some(text) =>
      if text == [] then []
      else
        match Parse(text)
        case Some(JArray(items)) => StringElements(items)
        case _ => []
  }

  /** `loadSavedAgents`. */
  function Load(b: Browser): (r: seq<string>)
    ensures !b.hasWindow ==> r == []
    ensures b.hasWindow ==> r == Lowered(ParseStored(b.stored))
    ensures AllLowerCase(r)
  {
    if !b.hasWindow then []
    else
      var r := Lowered(ParseStored(b.stored));
      forall i | 0 <= i < |r| ensures IsLowerCase(r[i]) { LowerIsLowerCase(ParseStored(b.stored)[i]); }
      r
  }

  /** `persistSavedAgents`. */
  function Persist(b: Browser, agents: seq<string>): (r: Browser)
    ensures r.hasWindow == b.hasWindow
    ensures !b.hasWindow ==> r == b
    ensures b.hasWindow ==> r.stored == Some(StringifyStrings(agents))
  {
    if !b.hasWindow then b else b.(stored := Some(StringifyStrings(agents)))
  }

  lemma StringElementsOfStrings(xs: seq<string>)
    ensures StringElements(Strings(xs)) == xs
  {
    if xs != [] {
      StringsCons(xs);
      assert Strings(xs)[1..] == Strings(xs[1..]);
      StringElementsOfStrings(xs[1..]);
    }
  }

  /** What is persisted is what `parseStoredAgents` reads back. */
  lemma ParsePersisted(xs: seq<string>)
    ensures ParseStored(Some(StringifyStrings(xs))) == xs
  {
    ParseStringifyStrings(xs);
    StringElementsOfStrings(xs);
  }

  lemma LoweredOfLowerCase(xs: seq<string>)
    requires AllLowerCase(xs)
    ensures Lowered(xs) == xs
  {
    forall i | 0 <= i < |xs| ensures Lower(xs[i]) == xs[i] { LowerOfLowerCase(xs[i]); }
  }

  /** Loading after persisting a lower-case list gives that list back. */
  lemma LoadPersist(b: Browser, xs: seq<string>)
    requires b.hasWindow && AllLowerCase(xs)
    ensures Load(Persist(b, xs)) == xs
  {
    ParsePersisted(xs);
    LoweredOfLowerCase(xs);
  }

  /** The keys of a JavaScript `Map` after setting each element of `s` in
      turn: a key already present keeps its position. */
  function Dedup(s: seq<string>): (r: seq<string>)
    ensures NoDup(r)
    ensures forall x :: x in r <==> x in s
    ensures |r| <= |s|
  {
    if s == [] then []
    else
      var d := Dedup(s[..|s| - 1]);
      var x := s[|s| - 1];
      assert forall y :: y in s <==> y in s[..|s| - 1] || y == x;
      if x in d then d else d + [x]
  }

  /** The position of the first occurrence of `x` in `s`. */
  function IndexOf(s: seq<string>, x: string): (i: nat)
    requires x in s
    ensures i < |s| && s[i] == x && x !in s[..i]
  {
    if s[0] == x then 0
    else
      var i := 1 + IndexOf(s[1..], x);
      assert s[..i] == [s[0]] + s[1..][..i - 1];
      i
  }

  lemma {:induction false} IndexOfPrefix(s: seq<string>, t: seq<string>, x: string)
    requires x in s
    ensures IndexOf(s + t, x) == IndexOf(s, x)
  {
    if s[0] != x {
      assert (s + t)[1..] == s[1..] + t;
      IndexOfPrefix(s[1..], t, x);
    }
  }

  lemma {:induction false} IndexOfLast(p: seq<string>, x: string)
    requires x !in p
    ensures IndexOf(p + [x], x) == |p|
  {
    if p != [] {
      assert (p + [x])[1..] == p[1..] + [x];
      IndexOfLast(p[1..], x);
    }
  }

  /** Keys come out in the order of their first occurrence in `s`. */
  lemma {:induction false} DedupOrdered(s: seq<string>)
    ensures forall i, j :: 0 <= i < j < |Dedup(s)| ==> IndexOf(s, Dedup(s)[i]) < IndexOf(s, Dedup(s)[j])
  {
    if s != [] {
      var p := s[..|s| - 1];
      var x := s[|s| - 1];
      assert s == p + [x];
      DedupOrdered(p);
      var d := Dedup(p);
      forall y | y in d ensures IndexOf(s, y) == IndexOf(p, y) && IndexOf(s, y) < |p|
      {
        IndexOfPrefix(p, [x], y);
      }
      if x !in d {
        IndexOfLast(p, x);
      }
    }
  }

  /** Setting keys that are already present changes nothing. */
  lemma {:induction false} DedupAppendPresent(a: seq<string>, b: seq<string>)
    requires forall x :: x in b ==> x in a
    ensures Dedup(a + b) == Dedup(a)
  {
    if b != [] {
      var p := b[..|b| - 1];
      var x := b[|b| - 1];
      assert x in b;
      assert (a + b)[..|a + b| - 1] == a + p;
      assert (a + b)[|a + b| - 1] == x;
      DedupAppendPresent(a, p);
      assert x in Dedup(a + p);
    } else {
      assert a + b == a;
    }
  }

  /** Setting a key a second time, later on, changes nothing. */
  lemma {:induction false} DedupDropPresent(a: seq<string>, x: string, c: seq<string>)
    requires x in a
    ensures Dedup(a + [x] + c) == Dedup(a + c)
  {
    if c == [] {
      assert a + [x] + c == a + [x];
      assert (a + [x])[..|a|] == a;
      assert a + c == a;
    } else {
      var c' := c[..|c| - 1];
      var y := c[|c| - 1];
      assert (a + [x] + c)[..|a + [x] + c| - 1] == a + [x] + c';
      assert (a + c)[..|a + c| - 1] == a + c';
      assert (a + [x] + c)[|a + [x] + c| - 1] == y && (a + c)[|a + c| - 1] == y;
      DedupDropPresent(a, x, c');
    }
  }

  /** A list without duplicates is its own key list. */
  lemma {:induction false} DedupOfNoDup(s: seq<string>)
    requires NoDup(s)
    ensures Dedup(s) == s
  {
    if s != [] {
      var p := s[..|s| - 1];
      DedupOfNoDup(p);
      assert s[|s| - 1] !in p;
      assert p + [s[|s| - 1]] == s;
    }
  }

  /** The keys for `a` come first, in the same order, in the keys for
      `a + b`. */
  lemma {:induction false} DedupPrefix(a: seq<string>, b: seq<string>)
    ensures |Dedup(a)| <= |Dedup(a + b)| && Dedup(a + b)[..|Dedup(a)|] == Dedup(a)
  {
    if b != [] {
      var p := b[..|b| - 1];
      assert (a + b)[..|a + b| - 1] == a + p;
      DedupPrefix(a, p);
    } else {
      assert a + b == a;
    }
  }

  /** `mergeSavedAgents`: the lower-cased addresses of `existing` and then
      `discovered`, each kept once at its first position. */
  function Merge(existing: seq<string>, discovered: seq<string>): (r: seq<string>)
    ensures AllLowerCase(r) && NoDup(r)
    ensures forall x :: x in r <==> x in Lowered(existing) || x in Lowered(discovered)
  {
    var all := Lowered(existing) + Lowered(discovered);
    var r := Dedup(all);
    forall i | 0 <= i < |r| ensures IsLowerCase(r[i])
    {
      assert r[i] in all;
      var k :| 0 <= k < |all| && all[k] == r[i];
      if k < |existing| { LowerIsLowerCase(existing[k]); }
      else { LowerIsLowerCase(discovered[k - |existing|]); }
    }
    r
  }

  /** The merged list starts with the merged `existing` entries, and its
      order is that of first occurrence. */
  lemma MergeOrder(existing: seq<string>, discovered: seq<string>)
    ensures var r := Merge(existing, discovered);
            var base := Dedup(Lowered(existing));
            |base| <= |r| && r[..|base|] == base
    ensures var all := Lowered(existing) + Lowered(discovered);
            var r := Merge(existing, discovered);
            forall i, j :: 0 <= i < j < |r| ==> IndexOf(all, r[i]) < IndexOf(all, r[j])
  {
    DedupPrefix(Lowered(existing), Lowered(discovered));
    DedupOrdered(Lowered(existing) + Lowered(discovered));
  }

  /** Merging the same discovered list a second time changes nothing. */
  lemma MergeAgainIsNoOp(existing: seq<string>, discovered: seq<string>)
    ensures Merge(Merge(existing, discovered), discovered) == Merge(existing, discovered)
  {
    var m := Merge(existing, discovered);
    LoweredOfLowerCase(m);
    DedupAppendPresent(m, Lowered(discovered));
    DedupOfNoDup(m);
  }

  /** Some entry of `xs` normalises to `n`. */
  predicate HasAddress(xs: seq<string>, n: string)
  {
    exists i :: 0 <= i < |xs| && Normalize(xs[i]) == n
  }

  /** `addSavedAgent(address)`: the next browser state and the returned list. */
  function Add(b: Browser, address: string): (r: (Browser, seq<string>))
    ensures !b.hasWindow ==> r == (b, [Normalize(address)])
    ensures b.hasWindow && HasAddress(Load(b), Normalize(address)) ==> r == (b, Load(b))
    ensures b.hasWindow && !HasAddress(Load(b), Normalize(address)) ==>
              r.1 == Load(b) + [Normalize(address)] && r.0 == Persist(b, r.1)
  {
    var normalized := Normalize(address);
    if !b.hasWindow then (b, [normalized])
    else
      var current := Load(b);
      if HasAddress(current, normalized) then (b, current)
      else
        var next := current + [normalized];
        (Persist(b, next), next)
  }

  /** After adding, the address is stored exactly once more than before:
      the list grows by one when it was absent, and what is stored reads
      back as the returned list. */
  lemma AddStores(b: Browser, address: string)
    requires b.hasWindow
    ensures var (b', next) := Add(b, address);
            Load(b') == next && HasAddress(next, Normalize(address))
            && |next| == |Load(b)| + (if HasAddress(Load(b), Normalize(address)) then 0 else 1)
  {
    var n := Normalize(address);
    var current := Load(b);
    LowerIsLowerCase(address);
    LowerIdempotent(address);
    if !HasAddress(current, n) {
      var next := current + [n];
      assert Normalize(next[|current|]) == n;
      assert AllLowerCase(next);
      LoadPersist(b, next);
    }
  }

  /** The entries that do not normalise to `n`, in their original order. */
  function Without(xs: seq<string>, n: string): (r: seq<string>)
    ensures forall x :: x in r <==> x in xs && Normalize(x) != n
    ensures !HasAddress(r, n)
  {
    if xs == [] then []
    else
      var rest := Without(xs[1..], n);
      assert forall x :: x in xs <==> x == xs[0] || x in xs[1..];
      if Normalize(xs[0]) == n then rest else [xs[0]] + rest
  }

  lemma {:induction false} WithoutAppend(a: seq<string>, b: seq<string>, n: string)
    ensures Without(a + b, n) == Without(a, n) + Without(b, n)
  {
    if a != [] {
      assert (a + b)[1..] == a[1..] + b;
      WithoutAppend(a[1..], b, n);
    } else {
      assert a + b == b;
    }
  }

  /** `removeSavedAgent(address)`: the next browser state and the returned
      list. */
  function Remove(b: Browser, address: string): (r: (Browser, seq<string>))
    ensures !b.hasWindow ==> r == (b, [])
    ensures b.hasWindow ==> r.1 == Without(Load(b), Normalize(address)) && r.0 == Persist(b, r.1)
    ensures !HasAddress(r.1, Normalize(address))
  {
    var normalized := Normalize(address);
    if !b.hasWindow then (b, [])
    else
      var next := Without(Load(b), normalized);
      (Persist(b, next), next)
  }

  /** Removing reads back as the returned list, and what remains is stored. */
  lemma RemoveStores(b: Browser, address: string)
    requires b.hasWindow
    ensures var (b', next) := Remove(b, address);
            Load(b') == next
  {
    var next := Without(Load(b), Normalize(address));
    assert AllLowerCase(next) by {
      forall i | 0 <= i < |next| ensures IsLowerCase(next[i]) {
        assert next[i] in Load(b);
      }
    }
    LoadPersist(b, next);
  }

  lemma WithoutAbsent(xs: seq<string>, n: string)
    requires !HasAddress(xs, n)
    ensures Without(xs, n) == xs
  {
    if xs != [] {
      assert !HasAddress(xs[1..], n) by {
        forall i | 0 <= i < |xs[1..]| ensures Normalize(xs[1..][i]) != n { assert xs[1..][i] == xs[i + 1]; }
      }
      WithoutAbsent(xs[1..], n);
      assert Normalize(xs[0]) != n;
    }
  }

  /** Removing an address that was just added restores the previous list. */
  lemma RemoveUndoesAdd(b: Browser, address: string)
    requires b.hasWindow && !HasAddress(Load(b), Normalize(address))
    ensures Remove(Add(b, address).0, address).1 == Load(b)
  {
    var n := Normalize(address);
    var current := Load(b);
    var next := current + [n];
    AddStores(b, address);
    WithoutAppend(current, [n], n);
    WithoutAbsent(current, n);
    LowerIdempotent(address);
    assert Without([n], n) == [];
  }
}
