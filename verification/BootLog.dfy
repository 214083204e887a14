/** Boot log entries: one per machine and image in thirty seconds, from a map that is purged when it grows. */
module BootLog {
  import opened Models

  /** Times in nanoseconds. */
  const SECOND := 1_000_000_000
  const WINDOW := 30 * SECOND
  const STALE := 600 * SECOND
  const LIMIT := 1024

  datatype Request = Request(mac: string, path: string, now: int)

  function Index(s: string, c: char): (i: int)
    ensures -1 <= i < |s|
    ensures i >= 0 ==> s[i] == c && c !in s[..i]
    ensures i < 0 <==> c !in s
  {
    if s == "" then -1
    else if s[0] == c then 0
    else
      var i := Index(s[1..], c);
      assert s == [s[0]] + s[1..];
      if i < 0 then -1 else assert s[..i + 1] == [s[0]] + s[1..][..i]; i + 1
  }

  /** A request that names a machine and has an image directory in its path. */
  predicate Counts(r: Request) {
    r.mac != "" && r.mac != "unknown" && Index(r.path, '/') > 0
  }

  function ImageDir(r: Request): string
    requires Counts(r)
  {
    r.path[..Index(r.path, '/')]
  }

  function Key(mac: string, dir: string): string {
    mac + "|" + dir
  }

  function KeyOf(r: Request): string
    requires Counts(r)
  {
    Key(r.mac, ImageDir(r))
  }

  function Purged(dedup: map<string, int>, now: int): map<string, int> {
    if |dedup| > LIMIT then map k | k in dedup && now - dedup[k] <= STALE :: dedup[k] else dedup
  }

  /** The map afterwards, and whether the boot is recorded. */
  function Handle(dedup: map<string, int>, r: Request): (map<string, int>, bool) {
    if !Counts(r) then (dedup, false)
    else if KeyOf(r) in dedup && r.now - dedup[KeyOf(r)] < WINDOW then (dedup, false)
    else (Purged(dedup[KeyOf(r) := r.now], r.now), true)
  }

  class BootLog {
    var dedup: map<string, int>

    constructor ()
      ensures dedup == map[]
    {
      dedup := map[];
    }

    method Purge(now: int)
      modifies this
      ensures dedup == map k | k in old(dedup) && now - old(dedup)[k] <= STALE :: old(dedup)[k]
      ensures forall k :: k in dedup <==> k in old(dedup) && now - old(dedup)[k] <= 600_000_000_000
    {
      var keys := dedup.Keys;
      while keys != {}
        invariant keys <= dedup.Keys
        invariant dedup == map k | k in old(dedup) && (k in keys || now - old(dedup)[k] <= STALE) :: old(dedup)[k]
        decreases |keys|
      {
        var k :| k in keys;
        keys := keys - {k};
        if now - dedup[k] > STALE {
          dedup := dedup - {k};
        }
      }
    }

    method RecordBootIfNew(r: Request) returns (recorded: bool)
      modifies this
      ensures (dedup, recorded) == Handle(old(dedup), r)
      ensures recorded <==>
                Counts(r) && !(KeyOf(r) in old(dedup) && r.now - old(dedup)[KeyOf(r)] < 30_000_000_000)
      ensures recorded ==>
                var full := old(dedup)[KeyOf(r) := r.now];
                && (forall k <- dedup :: k in full && dedup[k] == full[k])
                && (forall k <- full :: k in dedup <==> |full| <= 1024 || r.now - full[k] <= 600_000_000_000)
      ensures !recorded ==> dedup == old(dedup)
    {
      if r.mac == "" || r.mac == "unknown" {
        return false;
      }
      var slash := Index(r.path, '/');
      if slash <= 0 {
        return false;
      }
      var key := r.mac + "|" + r.path[..slash];
      if key in dedup && r.now - dedup[key] < WINDOW {
        return false;
      }
      dedup := dedup[key := r.now];
      if |dedup| > LIMIT {
        Purge(r.now);
      }
      recorded := true;
    }
  }

  // ---- A run against a history that forgets nothing ----

  /** Recorded unless a recorded request with the same key came less than the window before. */
  predicate Recorded(reqs: seq<Request>, n: nat)
    requires n < |reqs|
    decreases n
  {
    Counts(reqs[n]) &&
    forall i | 0 <= i < n ::
      Counts(reqs[i]) && KeyOf(reqs[i]) == KeyOf(reqs[n]) && reqs[n].now - reqs[i].now < WINDOW ==> !Recorded(reqs, i)
  }

  function After(reqs: seq<Request>, n: nat): map<string, int>
    requires n <= |reqs|
  {
    if n == 0 then map[] else Handle(After(reqs, n - 1), reqs[n - 1]).0
  }

  predicate InTimeOrder(reqs: seq<Request>) {
    forall i, j | 0 <= i < j < |reqs| :: reqs[i].now <= reqs[j].now
  }

  /** The latest of the first n requests that was recorded under this key. */
  function Latest(reqs: seq<Request>, n: nat, key: string): (i: Option<nat>)
    requires n <= |reqs|
    ensures i.Some? ==> i.value < n && Recorded(reqs, i.value) && KeyOf(reqs[i.value]) == key
    ensures forall j | 0 <= j < n && Recorded(reqs, j) && KeyOf(reqs[j]) == key :: i.Some? && j <= i.value
    decreases n
  {
    if n == 0 then None
    else if Recorded(reqs, n - 1) && KeyOf(reqs[n - 1]) == key then Some(n - 1)
    else Latest(reqs, n - 1, key)
  }

  /** The map has the time of the latest recorded request with this key, unless that is stale. */
  predicate Knows(reqs: seq<Request>, n: nat, key: string)
    requires n <= |reqs|
  {
    var dedup, i := After(reqs, n), Latest(reqs, n, key);
    if key in dedup then i.Some? && reqs[i.value].now == dedup[key]
    else i.Some? ==> reqs[n - 1].now - reqs[i.value].now > STALE
  }

  lemma RecordedByLatest(reqs: seq<Request>, n: nat)
    requires n < |reqs| && InTimeOrder(reqs) && Counts(reqs[n])
    ensures var i := Latest(reqs, n, KeyOf(reqs[n]));
            Recorded(reqs, n) <==> i.None? || reqs[n].now - reqs[i.value].now >= WINDOW
  {
    var i := Latest(reqs, n, KeyOf(reqs[n]));
    if i.Some? {
      assert forall j | 0 <= j < n && Recorded(reqs, j) && KeyOf(reqs[j]) == KeyOf(reqs[n]) ::
             reqs[j].now <= reqs[i.value].now;
    }
  }

  lemma DecidesRight(reqs: seq<Request>, n: nat)
    requires n < |reqs| && InTimeOrder(reqs) && Counts(reqs[n]) && Knows(reqs, n, KeyOf(reqs[n]))
    ensures Handle(After(reqs, n), reqs[n]).1 <==> Recorded(reqs, n)
  {
    RecordedByLatest(reqs, n);
    if n > 0 {
      assert reqs[n - 1].now <= reqs[n].now;
    }
  }

  /** What one request does to one key. */
  lemma HandleAt(dedup: map<string, int>, r: Request, key: string)
    requires Counts(r)
    ensures var (after, recorded) := Handle(dedup, r);
            if recorded && KeyOf(r) == key then key in after && after[key] == r.now
            else
              && (key in after ==> key in dedup && after[key] == dedup[key])
              && (key in dedup && key !in after ==> r.now - dedup[key] > STALE)
  {
  }

  lemma KnowsNext(reqs: seq<Request>, n: nat, key: string)
    requires n < |reqs| && InTimeOrder(reqs) && Knows(reqs, n, key)
    requires Handle(After(reqs, n), reqs[n]).1 <==> Recorded(reqs, n)
    ensures Knows(reqs, n + 1, key)
  {
    if Counts(reqs[n]) {
      HandleAt(After(reqs, n), reqs[n], key);
    }
    if n > 0 {
      assert reqs[n - 1].now <= reqs[n].now;
    }
  }

  lemma {:induction false} KnowsAlways(reqs: seq<Request>, n: nat)
    requires n <= |reqs| && InTimeOrder(reqs)
    ensures forall key :: Knows(reqs, n, key)
    decreases n
  {
    if n > 0 {
      KnowsAlways(reqs, n - 1);
      if Counts(reqs[n - 1]) {
        DecidesRight(reqs, n - 1);
      }
      forall key ensures Knows(reqs, n, key) {
        KnowsNext(reqs, n - 1, key);
      }
    }
  }

  /** However often the map is purged, each request is decided as if it never were. */
  lemma {:induction false} PurgingChangesNothing(reqs: seq<Request>, n: nat)
    requires n < |reqs| && InTimeOrder(reqs)
    ensures Handle(After(reqs, n), reqs[n]).1 <==> Recorded(reqs, n)
  {
    KnowsAlways(reqs, n);
    if Counts(reqs[n]) {
      DecidesRight(reqs, n);
    }
  }

  // ---- What a key stands for ----

  /** The key reads as another machine and directory, cut at this bar, that a request can have. */
  predicate CutsAt(key: string, i: nat)
    requires i < |key|
  {
    key[i] == '|' && key[..i] !in ["", "unknown"] && key[i + 1..] != "" && '/' !in key[i + 1..]
  }

  predicate SharesKey(q: Request, r: Request)
    requires Counts(q)
  {
    Counts(r) && (r.mac, ImageDir(r)) != (q.mac, ImageDir(q)) && KeyOf(r) == KeyOf(q)
  }

  /** A request shares its key with one of another machine or directory exactly when the key can be cut at another bar
      into a machine and a directory. */
  lemma KeysCollideIff(q: Request)
    requires Counts(q)
    ensures (exists r :: SharesKey(q, r)) <==>
            exists i | 0 <= i < |KeyOf(q)| :: i != |q.mac| && CutsAt(KeyOf(q), i)
  {
    if r :| SharesKey(q, r) {
      SharingCuts(q, r);
    }
    if i: nat :| i < |KeyOf(q)| && i != |q.mac| && CutsAt(KeyOf(q), i) {
      CuttingShares(q, i);
    }
  }

  lemma SharingCuts(q: Request, r: Request)
    requires Counts(q) && SharesKey(q, r)
    ensures |r.mac| < |KeyOf(q)| && |r.mac| != |q.mac| && CutsAt(KeyOf(q), |r.mac|)
  {
    KeyCutsAtMac(r);
    KeyCutsAtMac(q);
  }

  lemma CuttingShares(q: Request, i: nat)
    requires Counts(q) && i < |KeyOf(q)| && i != |q.mac| && CutsAt(KeyOf(q), i)
    ensures exists r :: SharesKey(q, r)
  {
    var m, d := KeyOf(q)[..i], KeyOf(q)[i + 1..];
    var r := Request(m, d + "/" + "", 0);
    FirstSlash(d, "");
    assert ImageDir(r) == d;
    assert KeyOf(r) == KeyOf(q);
    assert SharesKey(q, r);
  }

  lemma KeyCutsAtMac(r: Request)
    requires Counts(r)
    ensures var key := KeyOf(r);
            |r.mac| < |key| && CutsAt(key, |r.mac|) && key[..|r.mac|] == r.mac && key[|r.mac| + 1..] == ImageDir(r)
  {
  }

  /** A machine and a directory without bars have their key for themselves. */
  lemma BarlessKeysAreUnique(q: Request, r: Request)
    requires Counts(q) && '|' !in q.mac && '|' !in ImageDir(q)
    ensures !SharesKey(q, r)
  {
    if SharesKey(q, r) {
      SharingCuts(q, r);
      OneBar(q.mac, ImageDir(q), |r.mac|);
    }
  }

  lemma OneBar(mac: string, dir: string, i: nat)
    requires '|' !in mac && '|' !in dir && i < |Key(mac, dir)|
    ensures Key(mac, dir)[i] == '|' <==> i == |mac|
  {
    if i < |mac| {
      assert Key(mac, dir)[i] == mac[i];
    } else if i > |mac| {
      assert Key(mac, dir)[i] == dir[i - |mac| - 1];
    }
  }

  /** Two machines with one key: the boot of the second is taken for a repetition of the first. */
  lemma BarHidesABoot()
    ensures var first, second := Request("a|b", "c/x", 0), Request("a", "b|c/x", SECOND);
            && KeyOf(first) == KeyOf(second)
            && Handle(map[], first).1 && !Handle(Handle(map[], first).0, second).1
  {
    var first, second := Request("a|b", "c/x", 0), Request("a", "b|c/x", SECOND);
    assert "c/x" == "c" + "/" + "x" && "b|c/x" == "b|c" + "/" + "x";
    FirstSlash("c", "x");
    FirstSlash("b|c", "x");
    assert ImageDir(first) == "c" && ImageDir(second) == "b|c";
    assert KeyOf(first) == "a|b|c" == KeyOf(second);
  }

  lemma {:induction false} FirstSlash(a: string, b: string)
    requires '/' !in a
    ensures Index(a + "/" + b, '/') == |a|
    decreases |a|
  {
    if a != "" {
      assert (a + "/" + b)[1..] == a[1..] + "/" + b;
      FirstSlash(a[1..], b);
    }
  }
}
