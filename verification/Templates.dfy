/** Template substitution: the loop over an unordered map of placeholders, and what it computes. */
module Templates {

  /** Go's strings.ReplaceAll on valid UTF-8: non-overlapping matches, left to right, replacements not rescanned.
      An empty pattern matches before every character and at the end. */
  function ReplaceAll(s: string, pat: string, sub: string): string
    decreases |s|
  {
    if pat == "" then
      if s == "" then sub else sub + [s[0]] + ReplaceAll(s[1..], pat, sub)
    else if s == "" then ""
    else if pat <= s then sub + ReplaceAll(s[|pat|..], pat, sub)
    else [s[0]] + ReplaceAll(s[1..], pat, sub)
  }

  /** sub around and between all characters. */
  function Between(s: string, sub: string): string {
    if s == "" then sub else Between(s[..|s| - 1], sub) + [s[|s| - 1]] + sub
  }

  lemma {:induction false} BetweenFront(c: char, s: string, sub: string)
    ensures Between([c] + s, sub) == sub + [c] + Between(s, sub)
    decreases |s|
  {
    var n := |s| - 1;
    if s == "" {
      assert [c] + s == [c] && [c][..0] == "";
    } else {
      BetweenFront(c, s[..n], sub);
      assert ([c] + s)[..|s|] == [c] + s[..n] && ([c] + s)[|s|] == s[n];
      assert Between([c] + s, sub) == Between([c] + s[..n], sub) + [s[n]] + sub;
      assert sub + [c] + Between(s[..n], sub) + [s[n]] + sub == sub + [c] + (Between(s[..n], sub) + [s[n]] + sub);
    }
  }

  lemma {:induction false} EmptyPatternInserts(s: string, sub: string)
    ensures ReplaceAll(s, "", sub) == Between(s, sub)
    decreases |s|
  {
    if s != "" {
      EmptyPatternInserts(s[1..], sub);
      BetweenFront(s[0], s[1..], sub);
      assert [s[0]] + s[1..] == s;
    }
  }

  predicate MatchAt(t: string, p: int, k: string) {
    0 <= p <= |t| && k <= t[p..]
  }

  /** The loop body of Substitute for one fixed iteration order. */
  function InOrder(s: string, order: seq<string>, vars: map<string, string>): string
    requires forall k <- order :: k in vars
    decreases |order|
  {
    if order == [] then s
    else InOrder(ReplaceAll(s, order[0], vars[order[0]]), order[1..], vars)
  }

  /** order lists every key once: a possible iteration order of a Go map. */
  ghost predicate Enumerates(order: seq<string>, keys: set<string>) {
    && (forall k :: k in order <==> k in keys)
    && (forall i, j | 0 <= i < j < |order| :: order[i] != order[j])
  }

  /** The loop over the map: every iteration picks any key not yet visited. */
  method Substitute(s: string, vars: map<string, string>) returns (r: string)
    ensures exists order :: Enumerates(order, vars.Keys) && r == InOrder(s, order, vars)
    ensures Placeholders(vars.Keys) && NothingForms(vars) ==> r == Simultaneous(s, vars)
  {
    r := s;
    var todo := vars.Keys;
    ghost var order: seq<string> := [];
    while todo != {}
      invariant todo <= vars.Keys
      invariant Enumerates(order, vars.Keys - todo)
      invariant r == InOrder(s, order, vars)
    {
      var k :| k in todo;
      InOrderSnoc(s, order, k, vars);
      r := ReplaceAll(r, k, vars[k]);
      order := order + [k];
      todo := todo - {k};
    }
    assert vars.Keys - todo == vars.Keys;
    if Placeholders(vars.Keys) && NothingForms(vars) {
      AnyOrderIsSimultaneous(s, order, vars);
    }
  }

  lemma {:induction false} InOrderSnoc(s: string, order: seq<string>, k: string, vars: map<string, string>)
    requires k in vars && forall x <- order :: x in vars
    ensures InOrder(s, order + [k], vars) == ReplaceAll(InOrder(s, order, vars), k, vars[k])
    decreases |order|
  {
    if order != [] {
      assert (order + [k])[1..] == order[1..] + [k];
      InOrderSnoc(ReplaceAll(s, order[0], vars[order[0]]), order[1..], k, vars);
    } else {
      assert order + [k] == [k] && [k][1..] == [];
    }
  }

  /** Two opening braces, a name without braces, two closing braces. */
  predicate Placeholder(k: string) {
    && |k| >= 4
    && k[0] == k[1] == '{' && k[|k| - 2] == k[|k| - 1] == '}'
    && forall i | 2 <= i < |k| - 2 :: k[i] != '{' && k[i] != '}'
  }

  predicate Placeholders(keys: set<string>) {
    forall k <- keys :: Placeholder(k)
  }

  /** One left-to-right pass: at every position a key of vars is consumed whole; it is written out as its value
      if it belongs to done and unchanged otherwise. Text written out is never read again. */
  ghost function Pass(s: string, vars: map<string, string>, done: set<string>): string
    requires Placeholders(vars.Keys)
    decreases |s|
  {
    if s == "" then ""
    else if exists k :: k in vars && k <= s then
      var k :| k in vars && k <= s;
      (if k in done then vars[k] else k) + Pass(s[|k|..], vars, done)
    else [s[0]] + Pass(s[1..], vars, done)
  }

  /** Every placeholder replaced at once. */
  ghost function Simultaneous(s: string, vars: map<string, string>): string
    requires Placeholders(vars.Keys)
  {
    Pass(s, vars, vars.Keys)
  }

  /** Placing k at offset i of v (either end may stick out) makes the two agree wherever they overlap. */
  predicate Aligned(v: string, k: string, i: int) {
    -|k| < i < |v| && forall p | 0 <= p < |v| && i <= p < i + |k| :: v[p] == k[p - i]
  }

  /** Some text around v contains an occurrence of k that uses v. */
  predicate CanForm(v: string, k: string) {
    exists i | -|k| < i < |v| :: Aligned(v, k, i)
  }

  /** No value can take part in an occurrence of another key, except a key that is its own value. */
  predicate NothingForms(vars: map<string, string>) {
    forall k1 <- vars.Keys, k2 <- vars.Keys | k1 != k2 && vars[k1] != k1 :: !CanForm(vars[k2], k1)
  }

  // ---- Sufficiency: every order gives the simultaneous result ----

  lemma PlaceholdersDoNotNest(k: string, k': string)
    requires Placeholder(k) && Placeholder(k') && k <= k'
    ensures k == k'
  {
    assert k'[|k| - 2] == k[|k| - 2] && k'[|k| - 1] == k[|k| - 1];
  }

  /** At most one key matches at a position. */
  lemma OneKeyMatches(s: string, k: string, k': string)
    requires Placeholder(k) && Placeholder(k') && k <= s && k' <= s
    ensures k == k'
  {
    if |k| <= |k'| {
      assert k == s[..|k|] == k'[..|k|];
      PlaceholdersDoNotNest(k, k');
    }
    if |k'| <= |k| {
      assert k' == s[..|k'|] == k[..|k'|];
      PlaceholdersDoNotNest(k', k);
    }
  }

  /** A proper suffix of a placeholder never runs into another placeholder. */
  lemma SuffixMeetsNoPlaceholder(k: string, off: int, k': string, rest: string)
    requires Placeholder(k) && Placeholder(k') && 1 <= off < |k|
    ensures !(k[off..] <= k' + rest)
  {
    var t := k' + rest;
    assert t[0] == t[1] == '{' && k[off..][0] == k[off];
    assert off + 1 < |k| ==> k[off..][1] == k[off + 1];
  }

  lemma PassKey(s: string, k: string, vars: map<string, string>, done: set<string>)
    requires Placeholders(vars.Keys) && k in vars && k <= s
    ensures Pass(s, vars, done) == (if k in done then vars[k] else k) + Pass(s[|k|..], vars, done)
  {
    assert s != "";
    var k' :| k' in vars && k' <= s &&
      Pass(s, vars, done) == (if k' in done then vars[k'] else k') + Pass(s[|k'|..], vars, done);
    OneKeyMatches(s, k, k');
  }

  lemma {:induction false} PassOfNothing(s: string, vars: map<string, string>)
    requires Placeholders(vars.Keys)
    ensures Pass(s, vars, {}) == s
    decreases |s|
  {
    if s != "" {
      if k :| k in vars && k <= s {
        PassKey(s, k, vars, {});
        PassOfNothing(s[|k|..], vars);
      } else {
        PassOfNothing(s[1..], vars);
      }
    }
  }

  /** If a proper suffix of k starts a partly substituted text, it already started the template. */
  lemma {:induction false} SuffixWasThere(s: string, k: string, off: int, vars: map<string, string>, done: set<string>)
    requires Placeholders(vars.Keys) && Placeholder(k) && 1 <= off <= |k|
    requires forall k' <- vars.Keys | k' in done :: !CanForm(vars[k'], k)
    requires k[off..] <= Pass(s, vars, done)
    ensures k[off..] <= s
    decreases |s|
  {
    if off < |k| && s != "" {
      if k' :| k' in vars && k' <= s {
        PassKey(s, k', vars, done);
        var rest := Pass(s[|k'|..], vars, done);
        if k' in done {
          var v := vars[k'];
          forall p | 0 <= p < |v| && -off <= p < -off + |k| ensures v[p] == k[p + off] {
            assert (v + rest)[p] == k[off..][p];
          }
          assert Aligned(v, k, -off);
        } else {
          SuffixMeetsNoPlaceholder(k, off, k', rest);
        }
        assert false;
      } else {
        var rest := Pass(s[1..], vars, done);
        var t := [s[0]] + rest;
        assert k[off..] <= t;
        assert k[off] == t[0];
        assert k[off + 1..] == k[off..][1..] <= t[1..] == rest;
        SuffixWasThere(s[1..], k, off + 1, vars, done);
        assert k[off..] == [k[off]] + k[off + 1..];
        assert s == [s[0]] + s[1..];
      }
    }
  }

  lemma MatchWasThere(s: string, k: string, vars: map<string, string>, done: set<string>)
    requires Placeholders(vars.Keys) && Placeholder(k) && s != ""
    requires forall k' <- vars.Keys | k' in done :: !CanForm(vars[k'], k)
    ensures k <= [s[0]] + Pass(s[1..], vars, done) ==> k <= s
  {
    var t := [s[0]] + Pass(s[1..], vars, done);
    if k <= t {
      assert k[0] == t[0] && k[1..] <= t[1..] == Pass(s[1..], vars, done);
      SuffixWasThere(s[1..], k, 1, vars, done);
      assert k == [k[0]] + k[1..] && s == [s[0]] + s[1..];
    }
  }

  lemma PeelFront(t: string, a: nat, b: nat, rest: string)
    requires a <= b <= |t|
    ensures a < b ==> [t[a]] + (t[a + 1..b] + rest) == t[a..b] + rest
    ensures a == b ==> t[a..b] + rest == rest
  {
  }

  lemma ReplaceAllMiss(t: string, a: nat, k: string, v: string)
    requires k != "" && a < |t| && !MatchAt(t, a, k)
    ensures ReplaceAll(t[a..], k, v) == [t[a]] + ReplaceAll(t[a + 1..], k, v)
  {
    assert t[a..][1..] == t[a + 1..];
  }

  /** Where no match starts the scan copies. */
  lemma {:induction false} ReplaceAllCopies(t: string, a: nat, b: nat, k: string, v: string)
    requires k != "" && a <= b <= |t|
    requires forall p | a <= p < b :: !MatchAt(t, p, k)
    ensures ReplaceAll(t[a..], k, v) == t[a..b] + ReplaceAll(t[b..], k, v)
    decreases b - a
  {
    if a < b {
      ReplaceAllMiss(t, a, k, v);
      ReplaceAllCopies(t, a + 1, b, k, v);
    }
    PeelFront(t, a, b, ReplaceAll(t[b..], k, v));
  }

  lemma {:induction false} ReplaceByItself(s: string, k: string)
    requires k != ""
    ensures ReplaceAll(s, k, k) == s
    decreases |s|
  {
    if s != "" {
      if k <= s {
        ReplaceByItself(s[|k|..], k);
        assert s == k + s[|k|..];
      } else {
        ReplaceByItself(s[1..], k);
        assert s == [s[0]] + s[1..];
      }
    }
  }

  /** One iteration of the loop substitutes exactly the occurrences of k the template had. */
  lemma {:induction false} StepSubstitutesOneKey(s: string, k: string, vars: map<string, string>, done: set<string>)
    requires Placeholders(vars.Keys) && k in vars && k !in done
    requires forall k' <- vars.Keys | k' in done :: !CanForm(vars[k'], k)
    ensures ReplaceAll(Pass(s, vars, done), k, vars[k]) == Pass(s, vars, done + {k})
    decreases |s|
  {
    if s != "" {
      var v := vars[k];
      if k' :| k' in vars && k' <= s {
        PassKey(s, k', vars, done);
        PassKey(s, k', vars, done + {k});
        var rest := Pass(s[|k'|..], vars, done);
        StepSubstitutesOneKey(s[|k'|..], k, vars, done);
        if k' == k {
          assert (k + rest)[|k|..] == rest;
        } else if k' in done {
          ValueHoldsNoMatch(vars[k'], rest, k);
          ReplaceAllPast(vars[k'], rest, k, v);
        } else {
          KeyHoldsNoMatch(k', rest, k);
          ReplaceAllPast(k', rest, k, v);
        }
      } else {
        var rest := Pass(s[1..], vars, done);
        StepSubstitutesOneKey(s[1..], k, vars, done);
        MatchWasThere(s, k, vars, done);
        assert ([s[0]] + rest)[1..] == rest;
      }
    }
  }

  lemma ReplaceAllPast(a: string, rest: string, k: string, v: string)
    requires k != "" && forall p | 0 <= p < |a| :: !MatchAt(a + rest, p, k)
    ensures ReplaceAll(a + rest, k, v) == a + ReplaceAll(rest, k, v)
  {
    var t := a + rest;
    ReplaceAllCopies(t, 0, |a|, k, v);
    assert t[0..] == t && t[0..|a|] == a && t[|a|..] == rest;
  }

  lemma MatchAligns(v: string, rest: string, k: string, p: nat)
    requires p < |v| && k != "" && MatchAt(v + rest, p, k)
    ensures Aligned(v, k, p)
  {
    var t := (v + rest)[p..];
    forall q | 0 <= q < |v| && p <= q < p + |k| ensures v[q] == k[q - p] {
      assert t[q - p] == v[q];
    }
  }

  lemma ValueHoldsNoMatch(v: string, rest: string, k: string)
    requires !CanForm(v, k) && k != ""
    ensures forall p | 0 <= p < |v| :: !MatchAt(v + rest, p, k)
  {
    forall p | 0 <= p < |v| ensures !MatchAt(v + rest, p, k) {
      if MatchAt(v + rest, p, k) {
        MatchAligns(v, rest, k, p);
      }
    }
  }

  lemma KeyHoldsNoMatch(k': string, rest: string, k: string)
    requires Placeholder(k') && Placeholder(k) && k != k'
    ensures forall p | 0 <= p < |k'| :: !MatchAt(k' + rest, p, k)
  {
    forall p | 0 <= p < |k'| ensures !MatchAt(k' + rest, p, k) {
      var t := (k' + rest)[p..];
      assert p == 0 ==> k' <= t;
      if k <= t && k' <= t {
        OneKeyMatches(t, k, k');
      }
      assert t[0] == k'[p];
      assert p + 1 < |k'| ==> t[1] == k'[p + 1];
    }
  }

  lemma {:induction false} OrderedPasses(s: string, order: seq<string>, vars: map<string, string>, done: set<string>)
    requires Placeholders(vars.Keys) && NothingForms(vars) && done <= vars.Keys
    requires forall k <- order :: k in vars && k !in done
    requires forall i, j | 0 <= i < j < |order| :: order[i] != order[j]
    ensures InOrder(Pass(s, vars, done), order, vars) == Pass(s, vars, done + (set k <- order))
    decreases |order|
  {
    if order == [] {
      assert done + (set k <- order) == done;
    } else {
      var k := order[0];
      if vars[k] == k {
        ReplaceByItself(Pass(s, vars, done), k);
        PassIgnoresFixedKey(s, k, vars, done);
      } else {
        StepSubstitutesOneKey(s, k, vars, done);
      }
      assert forall x <- order[1..] :: x in order;
      assert forall i | 0 <= i < |order| - 1 :: order[1..][i] == order[i + 1];
      OrderedPasses(s, order[1..], vars, done + {k});
      assert order == [k] + order[1..];
      assert done + {k} + (set x <- order[1..]) == done + (set x <- order);
    }
  }

  lemma {:induction false} PassIgnoresFixedKey(s: string, k: string, vars: map<string, string>, done: set<string>)
    requires Placeholders(vars.Keys) && k in vars && vars[k] == k
    ensures Pass(s, vars, done) == Pass(s, vars, done + {k})
    decreases |s|
  {
    if s != "" {
      if k' :| k' in vars && k' <= s {
        PassKey(s, k', vars, done);
        PassKey(s, k', vars, done + {k});
        PassIgnoresFixedKey(s[|k'|..], k, vars, done);
      } else {
        PassIgnoresFixedKey(s[1..], k, vars, done);
      }
    }
  }

  lemma AnyOrderIsSimultaneous(s: string, order: seq<string>, vars: map<string, string>)
    requires Placeholders(vars.Keys) && NothingForms(vars) && Enumerates(order, vars.Keys)
    ensures InOrder(s, order, vars) == Simultaneous(s, vars)
  {
    PassOfNothing(s, vars);
    OrderedPasses(s, order, vars, {});
    assert {} + (set k <- order) == vars.Keys;
  }

  /** A placeholder that is all of a template gives its value. */
  lemma KeyAlone(vars: map<string, string>, k: string, order: seq<string>)
    requires Placeholders(vars.Keys) && NothingForms(vars) && Enumerates(order, vars.Keys) && k in vars
    ensures InOrder(k, order, vars) == vars[k]
  {
    AnyOrderIsSimultaneous(k, order, vars);
    PassKey(k, k, vars, vars.Keys);
    assert k[|k|..] == "";
  }

  // ---- Necessity: a value that can form a key yields a template on which two orders disagree ----

  lemma NoMatchNoChange(s: string, k: string, v: string)
    requires k != "" && forall p | 0 <= p < |s| :: !MatchAt(s, p, k)
    ensures ReplaceAll(s, k, v) == s
  {
    ReplaceAllCopies(s, 0, |s|, k, v);
    assert s[0..] == s && s[0..|s|] == s && s[|s|..] == "";
  }

  lemma {:induction false} LengthFollowsValue(t: string, k: string, v: string)
    requires k != ""
    ensures |v| >= |k| ==> |ReplaceAll(t, k, v)| >= |t|
    ensures |v| <= |k| ==> |ReplaceAll(t, k, v)| <= |t|
    decreases |t|
  {
    if t != "" {
      if k <= t { LengthFollowsValue(t[|k|..], k, v); } else { LengthFollowsValue(t[1..], k, v); }
    }
  }

  lemma {:induction false} MatchMeansChange(t: string, k: string, v: string, q: nat)
    requires k != "" && v != k && q < |t| && k <= t[q..]
    ensures ReplaceAll(t, k, v) != t
    decreases |t|
  {
    if k <= t {
      LengthFollowsValue(t[|k|..], k, v);
      var r := v + ReplaceAll(t[|k|..], k, v);
      if |v| == |k| {
        assert r[..|k|] == v && t[..|k|] == k;
      }
    } else {
      assert q > 0 by { assert t[0..] == t; }
      assert t[1..][q - 1..] == t[q..];
      MatchMeansChange(t[1..], k, v, q - 1);
      assert ([t[0]] + ReplaceAll(t[1..], k, v))[1..] == ReplaceAll(t[1..], k, v);
    }
  }

  lemma PassMiss(t: string, a: nat, vars: map<string, string>, done: set<string>)
    requires Placeholders(vars.Keys) && a < |t| && forall k <- vars.Keys :: !MatchAt(t, a, k)
    ensures Pass(t[a..], vars, done) == [t[a]] + Pass(t[a + 1..], vars, done)
  {
    assert forall k <- vars.Keys :: !(k <= t[a..]);
    assert t[a..][1..] == t[a + 1..];
  }

  lemma {:induction false} PassCopies(t: string, a: nat, b: nat, vars: map<string, string>, done: set<string>)
    requires Placeholders(vars.Keys) && a <= b <= |t|
    requires forall p, k <- vars.Keys | a <= p < b :: !MatchAt(t, p, k)
    ensures Pass(t[a..], vars, done) == t[a..b] + Pass(t[b..], vars, done)
    decreases b - a
  {
    if a < b {
      PassMiss(t, a, vars, done);
      PassCopies(t, a + 1, b, vars, done);
    }
    PeelFront(t, a, b, Pass(t[b..], vars, done));
  }

  /** What sticks out of v on the left and on the right when k is placed at offset i. */
  function Left(k: string, i: int): string
    requires i < 0 ==> -i <= |k|
  {
    if i < 0 then k[..-i] else ""
  }

  function Right(v: string, k: string, i: int): string
    requires i < |v|
  {
    if i + |k| > |v| then k[|v| - i..] else ""
  }

  lemma AlignedCompletes(v: string, k: string, i: int)
    requires Aligned(v, k, i)
    ensures var t := Left(k, i) + v + Right(v, k, i);
            var q := if i < 0 then 0 else i;
            q < |t| && k <= t[q..]
  {
    var l, r := Left(k, i), Right(v, k, i);
    var t := l + v + r;
    var q := if i < 0 then 0 else i;
    forall j | 0 <= j < |k| ensures q + j < |t| && t[q + j] == k[j] {
      if q + j >= |l| && q + j - |l| < |v| {
        assert t[q + j] == v[q + j - |l|];
      }
    }
    assert t[q..][..|k|] == k;
  }

  /** In l + k2 + r, with l a proper prefix and r a proper suffix of a key, the only match is k2 itself. */
  lemma OnlyMatch(k1: string, k2: string, m: nat, n: nat, k: string, p: nat)
    requires Placeholder(k1) && Placeholder(k2) && Placeholder(k)
    requires m < |k1| && 1 <= n <= |k1|
    requires MatchAt(k1[..m] + k2 + k1[n..], p, k)
    ensures p == m && k == k2
  {
    var s := k1[..m] + k2 + k1[n..];
    forall j | 0 <= j < |k| ensures p + j < |s| && s[p + j] == k[j] {
      assert s[p..][j] == k[j];
    }
    MatchStart(k1, k2, m, n, s, k, p);
    if k <= k1 {
      PlaceholdersDoNotNest(k, k1);
    }
    assert p == m ==> k2 <= s[p..];
    if k2 <= s[p..] {
      OneKeyMatches(s[p..], k, k2);
    }
  }

  lemma MatchStart(k1: string, k2: string, m: nat, n: nat, s: string, k: string, p: nat)
    requires Placeholder(k1) && Placeholder(k2) && Placeholder(k)
    requires m < |k1| && 1 <= n <= |k1| && s == k1[..m] + k2 + k1[n..]
    requires p + |k| <= |s| && forall j | 0 <= j < |k| :: s[p + j] == k[j]
    ensures p == m || (p == 0 && |k| <= m && k <= k1)
  {
    assert s[p] == k[0] && s[p + 1] == k[1] && s[p + 2] == k[2];
    assert s[m] == k2[0] && s[m + 1] == k2[1];
    assert p == m || (p == 0 && 3 <= m);
    assert p == 0 && m < |k| ==> s[m] == k[m];
    if |k| <= m {
      assert forall j | 0 <= j < |k| :: s[j] == k1[j];
    }
  }

  lemma {:induction false} OrderWithoutMatch(s: string, order: seq<string>, vars: map<string, string>)
    requires forall k <- order :: k in vars && k != ""
    requires forall p, k <- order | 0 <= p < |s| :: !MatchAt(s, p, k)
    ensures InOrder(s, order, vars) == s
    decreases |order|
  {
    if order != [] {
      NoMatchNoChange(s, order[0], vars[order[0]]);
      assert forall k <- order[1..] :: k in order;
      OrderWithoutMatch(s, order[1..], vars);
    }
  }

  lemma SomeOrder(keys: set<string>) returns (order: seq<string>)
    ensures Enumerates(order, keys)
  {
    order := [];
    var todo := keys;
    while todo != {}
      invariant todo <= keys && Enumerates(order, keys - todo)
    {
      var k :| k in todo;
      order := order + [k];
      todo := todo - {k};
    }
    assert keys - todo == keys;
  }

  /** For a value that can form another key: a template and two orders with different results, only one of which
      is the simultaneous one. */
  lemma FormingBreaksOrder(vars: map<string, string>, k1: string, k2: string)
    returns (s: string, good: seq<string>, bad: seq<string>)
    requires Placeholders(vars.Keys) && k1 in vars && k2 in vars && k1 != k2 && vars[k1] != k1
    requires CanForm(vars[k2], k1)
    ensures Enumerates(good, vars.Keys) && Enumerates(bad, vars.Keys)
    ensures InOrder(s, good, vars) == Simultaneous(s, vars) != InOrder(s, bad, vars)
  {
    var v1, v2 := vars[k1], vars[k2];
    var i :| -|k1| < i < |v2| && Aligned(v2, k1, i);
    var l, r := Left(k1, i), Right(v2, k1, i);
    s := l + k2 + r;
    var m := if i < 0 then -i else 0;
    var n := if i + |k1| > |v2| then |v2| - i else |k1|;
    assert l == k1[..m] && r == k1[n..];
    forall p: nat, k <- vars.Keys | MatchAt(s, p, k) ensures p == |l| && k == k2 {
      OnlyMatch(k1, k2, m, n, k, p);
    }
    TemplateBecomes(l, r, k2, vars);
    AlignedCompletes(v2, k1, i);
    MatchMeansChange(l + v2 + r, k1, v1, if i < 0 then 0 else i);
    good, bad := TwoOrders(s, l + v2 + r, k1, k2, vars);
  }

  lemma TemplateBecomes(l: string, r: string, k2: string, vars: map<string, string>)
    requires Placeholders(vars.Keys) && k2 in vars
    requires forall p: nat, k <- vars.Keys | MatchAt(l + k2 + r, p, k) :: p == |l| && k == k2
    ensures ReplaceAll(l + k2 + r, k2, vars[k2]) == l + vars[k2] + r == Simultaneous(l + k2 + r, vars)
  {
    OneReplaced(l, r, k2, vars[k2]);
    OnePassed(l, r, k2, vars);
  }

  lemma Parts(l: string, k: string, r: string)
    ensures var s, n := l + k + r, |l| + |k|;
            && s[0..] == s && s[0..|l|] == l && s[|l|..] == k + r && (k + r)[|k|..] == r
            && s[n..] == r && s[n..|s|] == r && s[|s|..] == ""
  {
  }

  lemma OneReplaced(l: string, r: string, k: string, v: string)
    requires k != "" && forall p: nat | MatchAt(l + k + r, p, k) :: p == |l|
    ensures ReplaceAll(l + k + r, k, v) == l + v + r
  {
    var s, n := l + k + r, |l| + |k|;
    Parts(l, k, r);
    ReplaceAllCopies(s, 0, |l|, k, v);
    ReplaceAllCopies(s, n, |s|, k, v);
    assert l + (v + r) == l + v + r;
  }

  lemma OnePassed(l: string, r: string, k2: string, vars: map<string, string>)
    requires Placeholders(vars.Keys) && k2 in vars
    requires forall p: nat, k <- vars.Keys | MatchAt(l + k2 + r, p, k) :: p == |l| && k == k2
    ensures Simultaneous(l + k2 + r, vars) == l + vars[k2] + r
  {
    var s, n := l + k2 + r, |l| + |k2|;
    Parts(l, k2, r);
    PassCopies(s, 0, |l|, vars, vars.Keys);
    PassCopies(s, n, |s|, vars, vars.Keys);
    PassKey(k2 + r, k2, vars, vars.Keys);
    assert l + (vars[k2] + r) == l + vars[k2] + r;
  }

  /** k1 before k2 leaves t; k2 before k1 goes on to change t. */
  lemma TwoOrders(s: string, t: string, k1: string, k2: string, vars: map<string, string>)
    returns (good: seq<string>, bad: seq<string>)
    requires Placeholders(vars.Keys) && k1 in vars && k2 in vars && k1 != k2
    requires forall p: nat, k <- vars.Keys | MatchAt(s, p, k) :: k == k2
    requires ReplaceAll(s, k2, vars[k2]) == t && ReplaceAll(t, k1, vars[k1]) != t
    ensures Enumerates(good, vars.Keys) && Enumerates(bad, vars.Keys)
    ensures InOrder(s, good, vars) == t != InOrder(s, bad, vars)
  {
    var others := SomeOrder(vars.Keys - {k1, k2});
    good := others + [k1] + [k2];
    bad := others + [k2] + [k1];
    AppendTwo(others, vars.Keys, k1, k2);
    AppendTwo(others, vars.Keys, k2, k1);
    forall p: nat, k <- others | p < |s| ensures !MatchAt(s, p, k) {
      assert k != k2;
    }
    OrderWithoutMatch(s, others, vars);
    NoMatchNoChange(s, k1, vars[k1]);
    InOrderSnoc(s, others, k1, vars);
    InOrderSnoc(s, others + [k1], k2, vars);
    InOrderSnoc(s, others, k2, vars);
    InOrderSnoc(s, others + [k2], k1, vars);
  }

  lemma AppendTwo(order: seq<string>, keys: set<string>, a: string, b: string)
    requires a in keys && b in keys && a != b && Enumerates(order, keys - {a, b})
    ensures Enumerates(order + [a] + [b], keys)
  {
    var o := order + [a] + [b];
    assert forall k :: k in o <==> k in order || k == a || k == b;
  }

  /** The map's iteration order never matters, and the result is the simultaneous substitution for every template,
      exactly when no value can take part in forming another key. */
  lemma OrderNeverMattersIff(vars: map<string, string>)
    requires Placeholders(vars.Keys)
    ensures NothingForms(vars) <==>
            forall s, order | Enumerates(order, vars.Keys) :: InOrder(s, order, vars) == Simultaneous(s, vars)
    ensures NothingForms(vars) <==>
            forall s, o1, o2 | Enumerates(o1, vars.Keys) && Enumerates(o2, vars.Keys) ::
              InOrder(s, o1, vars) == InOrder(s, o2, vars)
  {
    if NothingForms(vars) {
      forall s, order | Enumerates(order, vars.Keys) ensures InOrder(s, order, vars) == Simultaneous(s, vars) {
        AnyOrderIsSimultaneous(s, order, vars);
      }
    } else {
      var k1, k2 :| k1 in vars && k2 in vars && k1 != k2 && vars[k1] != k1 && CanForm(vars[k2], k1);
      var s, good, bad := FormingBreaksOrder(vars, k1, k2);
    }
  }

  predicate NameChar(c: char) { 'A' <= c <= 'Z' || c == '_' }

  /** Values without braces that hold a character no placeholder name uses (any address, path or lower-case name). */
  predicate PlainValue(v: string) {
    && (forall i | 0 <= i < |v| :: v[i] != '{' && v[i] != '}')
    && exists i | 0 <= i < |v| :: !NameChar(v[i])
  }

  predicate PlainKey(k: string) {
    Placeholder(k) && forall i | 2 <= i < |k| - 2 :: NameChar(k[i])
  }

  lemma PlainValueFormsNothing(v: string, k: string)
    requires PlainKey(k) && PlainValue(v)
    ensures !CanForm(v, k)
  {
    var p :| 0 <= p < |v| && !NameChar(v[p]);
    assert !NameChar(v[p]);
    forall i | -|k| < i < |v| ensures !Aligned(v, k, i) {
      if i <= p < i + |k| {
        assert v[p] != k[p - i];
      } else if p < i {
        assert v[i] != k[i - i];
      } else {
        var e := i + |k| - 1;
        assert v[e] != k[e - i];
      }
    }
  }

  lemma PlainValuesFormNothing(vars: map<string, string>)
    requires forall k <- vars.Keys :: PlainKey(k) && PlainValue(vars[k])
    ensures NothingForms(vars)
  {
    forall k1 <- vars.Keys, k2 <- vars.Keys ensures !CanForm(vars[k2], k1) {
      PlainValueFormsNothing(vars[k2], k1);
    }
  }
}
