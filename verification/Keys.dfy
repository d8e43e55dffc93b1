/** The keys of the budgets: one per (zone, rule or policy, client). */
module Keys {
  import Text

  /** What comes before the client in a key. */
  function Scope(zoneId: string, id: string): string {
    zoneId + ":" + id + ":"
  }

  function RuleKey(zoneId: string, ruleId: string, clientIp: string): string {
    "r:" + Scope(zoneId, ruleId) + clientIp
  }

  function DdosKey(zoneId: string, policyId: string, clientIp: string): string {
    "d:" + Scope(zoneId, policyId) + clientIp
  }

  /** One of the scopes begins the other. */
  predicate Overlap(a: string, b: string) {
    Text.HasPrefix(a, b) || Text.HasPrefix(b, a)
  }

  lemma MeetOverlaps(kind: string, a: string, c1: string, b: string, c2: string)
    requires kind + a + c1 == kind + b + c2
    ensures Overlap(a, b)
  {
    var n := |kind|;
    assert (kind + a + c1)[n..] == a + c1 && (kind + b + c2)[n..] == b + c2;
    if |a| <= |b| {
      assert (a + c1)[..|a|] == a && (b + c2)[..|a|] == b[..|a|];
    } else {
      assert (b + c2)[..|b|] == b && (a + c1)[..|b|] == a[..|b|];
    }
  }

  lemma OverlapMeets(kind: string, a: string, b: string) returns (c1: string, c2: string)
    requires Overlap(a, b)
    ensures kind + a + c1 == kind + b + c2
  {
    if Text.HasPrefix(b, a) {
      c1, c2 := b[|a|..], "";
      assert a + c1 == b;
    } else {
      c1, c2 := "", a[|b|..];
      assert b + c2 == a;
    }
    assert kind + a + c1 == kind + (a + c1) && kind + b + c2 == kind + (b + c2);
  }

  /** Two rules share a budget of some two clients if and only if one scope begins the other. */
  lemma RuleKeysMeetExactly(z1: string, r1: string, z2: string, r2: string)
    ensures (exists c1, c2 :: RuleKey(z1, r1, c1) == RuleKey(z2, r2, c2)) <==> Overlap(Scope(z1, r1), Scope(z2, r2))
  {
    if Overlap(Scope(z1, r1), Scope(z2, r2)) {
      var c1, c2 := OverlapMeets("r:", Scope(z1, r1), Scope(z2, r2));
      assert RuleKey(z1, r1, c1) == RuleKey(z2, r2, c2);
    }
    if c1, c2 :| RuleKey(z1, r1, c1) == RuleKey(z2, r2, c2) {
      MeetOverlaps("r:", Scope(z1, r1), c1, Scope(z2, r2), c2);
    }
  }

  /** The same for two policies. */
  lemma DdosKeysMeetExactly(z1: string, p1: string, z2: string, p2: string)
    ensures (exists c1, c2 :: DdosKey(z1, p1, c1) == DdosKey(z2, p2, c2)) <==> Overlap(Scope(z1, p1), Scope(z2, p2))
  {
    if Overlap(Scope(z1, p1), Scope(z2, p2)) {
      var c1, c2 := OverlapMeets("d:", Scope(z1, p1), Scope(z2, p2));
      assert DdosKey(z1, p1, c1) == DdosKey(z2, p2, c2);
    }
    if c1, c2 :| DdosKey(z1, p1, c1) == DdosKey(z2, p2, c2) {
      MeetOverlaps("d:", Scope(z1, p1), c1, Scope(z2, p2), c2);
    }
  }

  /** Two kinds of budget never share a key, whatever the identifiers are. */
  lemma RuleAndDdosKeysApart(z1: string, r: string, c1: string, z2: string, p: string, c2: string)
    ensures RuleKey(z1, r, c1) != DdosKey(z2, p, c2)
  {
    assert RuleKey(z1, r, c1)[0] == 'r' && DdosKey(z2, p, c2)[0] == 'd';
  }

  /** Within a zone, one client's budgets are told apart by the identifiers alone. */
  lemma KeysOfOneClient(z: string, id1: string, id2: string, c: string)
    ensures RuleKey(z, id1, c) == RuleKey(z, id2, c) ==> id1 == id2
    ensures DdosKey(z, id1, c) == DdosKey(z, id2, c) ==> id1 == id2
  {
    var n := 2 + |z| + 1;
    assert RuleKey(z, id1, c)[n..] == id1 + ":" + c && DdosKey(z, id1, c)[n..] == id1 + ":" + c;
    assert RuleKey(z, id2, c)[n..] == id2 + ":" + c && DdosKey(z, id2, c)[n..] == id2 + ":" + c;
    if id1 + ":" + c == id2 + ":" + c {
      assert |id1| == |id2|;
      assert (id1 + ":" + c)[..|id1|] == id1 && (id2 + ":" + c)[..|id2|] == id2;
    }
  }

  /** Within a scope, the budgets are told apart by the clients. */
  lemma KeysOfOneScope(z: string, id: string, c1: string, c2: string)
    ensures RuleKey(z, id, c1) == RuleKey(z, id, c2) ==> c1 == c2
    ensures DdosKey(z, id, c1) == DdosKey(z, id, c2) ==> c1 == c2
  {
    var n := 2 + |Scope(z, id)|;
    assert RuleKey(z, id, c1)[n..] == c1 && RuleKey(z, id, c2)[n..] == c2;
    assert DdosKey(z, id, c1)[n..] == c1 && DdosKey(z, id, c2)[n..] == c2;
  }

  // ---------------------------------------------------------------- identifiers without a colon

  lemma SplitOnce(a: string, b: string, c: string, d: string)
    requires ':' !in a && ':' !in c
    requires a + ":" + b == c + ":" + d
    ensures a == c && b == d
  {
    assert a + [':'] + b == a + ":" + b;
    assert c + [':'] + d == c + ":" + d;
    Text.CutAtFirst(a, ':', b);
    Text.CutAtFirst(c, ':', d);
  }

  lemma ScopeBegins(z1: string, i1: string, z2: string, i2: string)
    requires ':' !in z1 && ':' !in z2 && ':' !in i1 && ':' !in i2
    requires Text.HasPrefix(Scope(z1, i1), Scope(z2, i2))
    ensures z1 == z2 && i1 == i2
  {
    var rest := Scope(z1, i1)[|Scope(z2, i2)|..];
    assert Scope(z1, i1) == Scope(z2, i2) + rest;
    assert Scope(z1, i1) == z1 + ":" + (i1 + ":" + "") && Scope(z2, i2) + rest == z2 + ":" + (i2 + ":" + rest);
    SplitOnce(z1, i1 + ":" + "", z2, i2 + ":" + rest);
    SplitOnce(i1, "", i2, rest);
  }

  /** Scopes of identifiers without a colon overlap only when they are one. */
  lemma ColonFreeScopes(z1: string, i1: string, z2: string, i2: string)
    requires ':' !in z1 && ':' !in z2 && ':' !in i1 && ':' !in i2
    ensures Overlap(Scope(z1, i1), Scope(z2, i2)) <==> z1 == z2 && i1 == i2
  {
    if Text.HasPrefix(Scope(z1, i1), Scope(z2, i2)) {
      ScopeBegins(z1, i1, z2, i2);
    } else if Text.HasPrefix(Scope(z2, i2), Scope(z1, i1)) {
      ScopeBegins(z2, i2, z1, i1);
    }
  }

  /** The client may contain colons, as IPv6 addresses do. */
  lemma RuleKeyInjective(z1: string, r1: string, c1: string, z2: string, r2: string, c2: string)
    requires ':' !in z1 && ':' !in z2 && ':' !in r1 && ':' !in r2
    requires RuleKey(z1, r1, c1) == RuleKey(z2, r2, c2)
    ensures z1 == z2 && r1 == r2 && c1 == c2
  {
    RuleKeysMeetExactly(z1, r1, z2, r2);
    ColonFreeScopes(z1, r1, z2, r2);
    KeysOfOneScope(z1, r1, c1, c2);
  }

  lemma DdosKeyInjective(z1: string, p1: string, c1: string, z2: string, p2: string, c2: string)
    requires ':' !in z1 && ':' !in z2 && ':' !in p1 && ':' !in p2
    requires DdosKey(z1, p1, c1) == DdosKey(z2, p2, c2)
    ensures z1 == z2 && p1 == p2 && c1 == c2
  {
    DdosKeysMeetExactly(z1, p1, z2, p2);
    ColonFreeScopes(z1, p1, z2, p2);
    KeysOfOneScope(z1, p1, c1, c2);
  }

  /** Rule "a:b" for client "c" and rule "a" for client "b:c" spend one budget. */
  lemma SeparatorInAnIdMergesBudgets(z: string, a: string, b: string, c: string)
    ensures RuleKey(z, a + ":" + b, c) == RuleKey(z, a, b + ":" + c)
  {
    assert Scope(z, a + ":" + b) + c == Scope(z, a) + (b + ":" + c);
    assert RuleKey(z, a + ":" + b, c) == "r:" + (Scope(z, a + ":" + b) + c);
    assert RuleKey(z, a, b + ":" + c) == "r:" + (Scope(z, a) + (b + ":" + c));
  }
}
