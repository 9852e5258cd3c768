// Folding a command history with some commands passed over, and exactly when
// that makes no difference.
module Folds {
  import opened Bytes
  import opened Snapshots
  import opened StoreState

  // The fold looks only at the first n commands and at the gaps among them.
  lemma {:induction false} FoldAgree(json: Json, h: seq<seq<byte>>, g: seq<seq<byte>>, gaps: set<nat>, n: nat)
    requires n <= |h| && n <= |g| && h[..n] == g[..n]
    ensures FoldWithout(json, h, gaps, n) == FoldWithout(json, g, gaps, n)
  {
    if n == 0 {
    } else {
      assert h[n - 1] == h[..n][n - 1] == g[..n][n - 1] == g[n - 1];
      assert h[..n - 1] == h[..n][..n - 1] == g[..n][..n - 1] == g[..n - 1];
      FoldAgree(json, h, g, gaps, n - 1);
    }
  }

  lemma {:induction false} FoldCanonical(json: Json, h: seq<seq<byte>>, gaps: set<nat>, n: nat)
    requires Lawful(json) && n <= |h|
    ensures Canonical(json, FoldWithout(json, h, gaps, n))
  {
    if n == 0 {
    } else {
      FoldCanonical(json, h, gaps, n - 1);
    }
  }

  // From equal states on, folds over the same commands stay equal.
  lemma {:induction false} FoldOnward(json: Json, h: seq<seq<byte>>, x: set<nat>, y: set<nat>, a: nat, n: nat)
    requires a <= n <= |h|
    requires FoldWithout(json, h, x, a) == FoldWithout(json, h, y, a)
    requires forall s :: a < s <= n ==> (s in x <==> s in y)
    ensures FoldWithout(json, h, x, n) == FoldWithout(json, h, y, n)
    decreases n - a
  {
    if n > a {
      FoldOnward(json, h, x, y, a, n - 1);
    }
  }

  // Passing over everything from a + 1 on leaves the state of a.
  lemma {:induction false} FoldStays(json: Json, h: seq<seq<byte>>, gaps: set<nat>, a: nat, n: nat)
    requires a <= n <= |h| && forall s :: a < s <= n ==> s in gaps
    ensures FoldWithout(json, h, gaps, n) == FoldWithout(json, h, gaps, a)
    decreases n - a
  {
    if n > a {
      FoldStays(json, h, gaps, a, n - 1);
    }
  }

  // Applying command s to the state of a passes over those in between.
  function Passed(gaps: set<nat>, a: nat, s: nat): set<nat> {
    gaps + Between(a, s)
  }

  lemma PassedNone(gaps: set<nat>, a: nat)
    ensures Passed(gaps, a, a + 1) == gaps
  {
  }

  // Passing over later commands does not change the state of a.
  lemma FoldBefore(json: Json, h: seq<seq<byte>>, gaps: set<nat>, a: nat, s: nat)
    requires a <= |h|
    ensures FoldWithout(json, h, Passed(gaps, a, s), a) == FoldWithout(json, h, gaps, a)
  {
    FoldOnward(json, h, Passed(gaps, a, s), gaps, 0, a);
  }

  lemma FoldPassed(json: Json, h: seq<seq<byte>>, gaps: set<nat>, a: nat, s: nat)
    requires a < s <= |h| + 1 && forall t :: t in gaps ==> t <= a
    ensures FoldWithout(json, h, Passed(gaps, a, s), s - 1) == FoldWithout(json, h, gaps, a)
  {
    FoldStays(json, h, Passed(gaps, a, s), a, s - 1);
    FoldBefore(json, h, gaps, a, s);
  }

  // ----- Key by key -----

  function Lookup(kv: map<Key, Value>, key: Key): Option<Value> {
    if key in kv then Some(kv[key]) else None
  }

  // What a command leaves under its own key.
  function Effect(c: Command): Option<Value> {
    match c
    case Set(_, value) => Some(value)
    case Delete(_) => None
  }

  // What a last write leaves; nothing if there was none.
  function Outlook(last: Option<Command>): Option<Value> {
    if last.Some? then Effect(last.value) else None
  }

  // The last of the first n commands, gaps left out, that writes this key.
  function LastWrite(json: Json, h: seq<seq<byte>>, gaps: set<nat>, n: nat, key: Key): (last: Option<Command>)
    requires n <= |h|
    ensures last.Some? ==> last.value.key == key
  {
    if n == 0 then None
    else if n in gaps then LastWrite(json, h, gaps, n - 1, key)
    else
      match DecodeCommand(json, h[n - 1])
      case None => LastWrite(json, h, gaps, n - 1, key)
      case Some(c) => if c.key == key then Some(c) else LastWrite(json, h, gaps, n - 1, key)
  }

  // A key has the value of its last write that was not passed over.
  lemma {:induction false} FoldByLastWrite(json: Json, h: seq<seq<byte>>, gaps: set<nat>, n: nat, key: Key)
    requires n <= |h|
    ensures Lookup(FoldWithout(json, h, gaps, n), key) == Outlook(LastWrite(json, h, gaps, n, key))
  {
    hide DecodeCommand;
    if n > 0 {
      FoldByLastWrite(json, h, gaps, n - 1, key);
    }
  }

  lemma MapsEqual(a: map<Key, Value>, b: map<Key, Value>)
    requires forall key :: Lookup(a, key) == Lookup(b, key)
    ensures a == b
  {
    forall key
      ensures key in a <==> key in b
      ensures key in a ==> key in b && a[key] == b[key]
    {
      assert Lookup(a, key) == Lookup(b, key);
    }
  }

  // Command s has key `key`.
  predicate Writes(json: Json, h: seq<seq<byte>>, s: nat, key: Key)
    requires 1 <= s <= |h|
  {
    DecodeCommand(json, h[s - 1]).Some? && DecodeCommand(json, h[s - 1]).value.key == key
  }

  // The commands passed over do no harm: each key that one of them writes has
  // its last write on the log applied, or that write leaves what the last applied
  // one left. This speaks of the log and of the sequences passed over only.
  ghost predicate Harmless(json: Json, h: seq<seq<byte>>, gaps: set<nat>, n: nat)
    requires n <= |h|
  {
    forall s, key ::
      s in gaps && 1 <= s <= n && Writes(json, h, s, key) ==>
        Outlook(LastWrite(json, h, {}, n, key)) == Outlook(LastWrite(json, h, gaps, n, key))
  }

  lemma {:induction false} SameLastWrite(json: Json, h: seq<seq<byte>>, gaps: set<nat>, n: nat, key: Key)
    requires n <= |h|
    requires forall s :: s in gaps && 1 <= s <= n ==> !Writes(json, h, s, key)
    ensures LastWrite(json, h, {}, n, key) == LastWrite(json, h, gaps, n, key)
  {
    if n > 0 {
      SameLastWrite(json, h, gaps, n - 1, key);
    }
  }

  // The exact condition.
  lemma HarmlessIff(json: Json, h: seq<seq<byte>>, gaps: set<nat>, n: nat)
    requires n <= |h|
    ensures FoldWithout(json, h, gaps, n) == Fold(json, h, n) <==> Harmless(json, h, gaps, n)
  {
    hide FoldWithout, LastWrite, Writes;
    var a, b := FoldWithout(json, h, gaps, n), FoldWithout(json, h, {}, n);
    if Harmless(json, h, gaps, n) {
      forall key
        ensures Lookup(a, key) == Lookup(b, key)
      {
        FoldByLastWrite(json, h, gaps, n, key);
        FoldByLastWrite(json, h, {}, n, key);
        if forall s :: s in gaps && 1 <= s <= n ==> !Writes(json, h, s, key) {
          SameLastWrite(json, h, gaps, n, key);
        }
      }
      MapsEqual(a, b);
    } else {
      var s, key :| s in gaps && 1 <= s <= n && Writes(json, h, s, key)
                    && Outlook(LastWrite(json, h, {}, n, key)) != Outlook(LastWrite(json, h, gaps, n, key));
      FoldByLastWrite(json, h, gaps, n, key);
      FoldByLastWrite(json, h, {}, n, key);
    }
  }
}
