/**
 Next-hop selection of internal/tunnel: endpoints with health, the round-robin selector, fallback
 dialing and hot reload, and the relay's table of dialers that uses them.
 */
module HopPool {
  import opened Bytes

  datatype HopAddr = HopAddr(typ: string, addr: string, port: int, host: string, tls: bool, tunnelPath: string)
  {
    /** "%s:%s:%d%s" of type, address, port and path, where an empty path means /tunnel. */
    function Identity(): string {
      typ + ":" + addr + ":" + Itoa(port) + EffectivePath(this)
    }
  }

  function Digits(n: nat): (s: string)
    ensures s != [] && forall c <- s :: '0' <= c <= '9'
  {
    if n < 10 then [(('0' as int) + n) as char] else Digits(n / 10) + [(('0' as int) + n % 10) as char]
  }

  function Itoa(n: int): (s: string)
    ensures s != [] && forall c <- s :: c == '-' || '0' <= c <= '9'
  {
    if n < 0 then "-" + Digits(-n) else Digits(n)
  }

  // ---- what an identity distinguishes ----

  /** The path that is dialed: an empty one means /tunnel. */
  function EffectivePath(a: HopAddr): string {
    if a.tunnelPath == "" then "/tunnel" else a.tunnelPath
  }

  predicate SameHop(a: HopAddr, b: HopAddr) {
    a.typ == b.typ && a.addr == b.addr && a.port == b.port && EffectivePath(a) == EffectivePath(b)
  }

  /** An address whose identity can be read back: no ':' in the type, no '/' in the address, and a
      path that starts with '/'. */
  predicate WellFormed(a: HopAddr) {
    ':' !in a.typ && '/' !in a.addr && EffectivePath(a)[..1] == "/"
  }

  lemma {:induction false} DigitsInjective(m: nat, n: nat)
    requires Digits(m) == Digits(n)
    ensures m == n
    decreases m
  {
    var s, t := Digits(m), Digits(n);
    assert s[|s| - 1] as int == '0' as int + m % 10 && t[|t| - 1] as int == '0' as int + n % 10;
    if m >= 10 && n >= 10 {
      assert s[..|s| - 1] == Digits(m / 10) && t[..|t| - 1] == Digits(n / 10);
      DigitsInjective(m / 10, n / 10);
    }
  }

  lemma ItoaInjective(m: int, n: int)
    requires Itoa(m) == Itoa(n)
    ensures m == n
  {
    if m < 0 && n < 0 {
      assert Itoa(m)[1..] == Digits(-m) && Itoa(n)[1..] == Digits(-n);
      DigitsInjective(-m, -n);
    } else if m >= 0 && n >= 0 {
      DigitsInjective(m, n);
    } else {
      var k := if m < 0 then n else m;
      assert Itoa(k)[0] == '-' && Itoa(k)[0] in Digits(k);
    }
  }

  /** A string without the separator in front of one ends at its first occurrence, ... */
  lemma FirstSeparator(a: string, x: string, sep: char)
    requires sep !in a
    ensures var s := a + [sep] + x;
            s[|a|] == sep && s[..|a|] == a && s[|a| + 1..] == x && forall i | 0 <= i < |a| :: s[i] != sep
  {
  }

  /** ... and one without it behind starts after its last. */
  lemma LastSeparator(a: string, x: string, sep: char)
    requires sep !in x
    ensures var s := a + [sep] + x;
            s[|a|] == sep && s[..|a|] == a && s[|a| + 1..] == x && forall i | |a| < i < |s| :: s[i] != sep
  {
    var s := a + [sep] + x;
    forall i | |a| < i < |s| ensures s[i] != sep {
      assert s[i] == x[i - |a| - 1] && x[i - |a| - 1] in x;
    }
  }

  lemma CutFirst(a: string, x: string, b: string, y: string, sep: char)
    requires sep !in a && sep !in b && a + [sep] + x == b + [sep] + y
    ensures a == b && x == y
  {
    FirstSeparator(a, x, sep);
    FirstSeparator(b, y, sep);
    assert |a| == |b|;
  }

  lemma CutLast(a: string, x: string, b: string, y: string, sep: char)
    requires sep !in x && sep !in y && a + [sep] + x == b + [sep] + y
    ensures a == b && x == y
  {
    LastSeparator(a, x, sep);
    LastSeparator(b, y, sep);
    assert |a| == |b|;
  }

  /** The identity of a well-formed address as its parts and their separators. */
  lemma IdentityParts(a: HopAddr) returns (front: string, path: string)
    requires WellFormed(a)
    ensures front == a.addr + [':'] + Itoa(a.port) && EffectivePath(a) == ['/'] + path
    ensures ':' !in Itoa(a.port) && '/' !in front
    ensures a.Identity() == a.typ + [':'] + (front + ['/'] + path)
  {
    hide Itoa;
    front, path := a.addr + [':'] + Itoa(a.port), EffectivePath(a)[1..];
    assert EffectivePath(a) == EffectivePath(a)[..1] + path;
    hide EffectivePath;
    assert a.Identity() == a.typ + [':'] + (a.addr + [':'] + Itoa(a.port)) + (['/'] + path);
  }

  /** Well-formed addresses have the same identity exactly when they name the same hop: the type, the
      address, the port and the effective path agree. */
  lemma IdentityIsTheHop(a: HopAddr, b: HopAddr)
    requires WellFormed(a) && WellFormed(b)
    ensures a.Identity() == b.Identity() <==> SameHop(a, b)
  {
    if a.Identity() == b.Identity() {
      var p, x := IdentityParts(a);
      var q, y := IdentityParts(b);
      hide HopAddr.Identity, EffectivePath, Itoa;
      CutFirst(a.typ, p + ['/'] + x, b.typ, q + ['/'] + y, ':');
      CutFirst(p, x, q, y, '/');
      CutLast(a.addr, Itoa(a.port), b.addr, Itoa(b.port), ':');
      ItoaInjective(a.port, b.port);
    }
  }

  /** Nothing makes a configured path start with '/'; without it different ports can collide. */
  lemma BarePathCanCollide()
    ensures var a := HopAddr("ip", "10.0.0.1", 80, "edge.example", true, "80/t");
            var b := HopAddr("ip", "10.0.0.1", 8080, "edge.example", true, "/t");
            a.Identity() == b.Identity() && !SameHop(a, b)
  {
    assert Digits(80) == Digits(8) + "0" == "80";
    assert Digits(808) == Digits(80) + "8" == "808";
    assert Digits(8080) == Digits(808) + "0" == "8080";
  }

  /** The latency estimate after one more sample; the first sample is taken as it is. */
  function Ewma(was: Option<real>, ms: real): (r: Option<real>)
    ensures r.Some? && (was.None? ==> r.value == ms)
    ensures was.Some? ==> 5.0 * (r.value - was.value) == ms - was.value
  {
    Some(if was.None? then ms else 0.2 * ms + (1.0 - 0.2) * was.value)
  }

  class HopEndpoint {
    var addr: HopAddr
    var alive: bool
    var latency: Option<real>  // EWMA in milliseconds; None stands for math.MaxFloat64

    constructor (addr: HopAddr)
      ensures this.addr == addr && alive && latency == None
    {
      this.addr, alive, latency := addr, true, None;
    }

    method RecordLatency(ms: real)
      modifies `latency
      ensures latency == Ewma(old(latency), ms)
    {
      latency := Some(if latency.None? then ms else 0.2 * ms + (1.0 - 0.2) * latency.value);
    }
  }

  // ---- round robin ----

  const MAX_INT64 := 0x8000_0000_0000_0000  // one more than the largest int

  /** Go's int(n) of a uint64, and Go's remainder, which has the sign of the dividend. */
  function Signed64(n: int): (r: int)
    requires 0 <= n < 0x1_0000_0000_0000_0000
    ensures -MAX_INT64 <= r < MAX_INT64 && (r == n || r == n - 0x1_0000_0000_0000_0000)
  {
    if n < MAX_INT64 then n else n - 0x1_0000_0000_0000_0000
  }

  function GoMod(a: int, n: nat): (r: int)
    requires n > 0
    ensures if a >= 0 then 0 <= r < n else r <= 0 && -r < n
  {
    if a >= 0 then a % n else -((-a) % n)
  }

  lemma GoModIsRemainder(a: int, n: nat) returns (q: int)
    requires n > 0
    ensures a == q * n + GoMod(a, n)
  {
    q := if a >= 0 then a / n else -((-a) / n);
  }

  function Rotation<T>(s: seq<T>, start: nat): seq<T>
    requires start <= |s|
  {
    s[start..] + s[..start]
  }

  function AliveOnly(eps: seq<HopEndpoint>): (alive: seq<HopEndpoint>)
    reads eps
    ensures |alive| <= |eps|
  {
    if eps == [] then []
    else AliveOnly(eps[..|eps| - 1]) + (if eps[|eps| - 1].alive then [eps[|eps| - 1]] else [])
  }

  lemma {:induction false} AliveMembers(eps: seq<HopEndpoint>)
    ensures forall e <- eps :: e in AliveOnly(eps) <==> e.alive
    ensures forall e <- AliveOnly(eps) :: e in eps
  {
    if eps != [] {
      AliveMembers(eps[..|eps| - 1]);
      assert eps == eps[..|eps| - 1] + [eps[|eps| - 1]];
    }
  }

  lemma AliveSingle(e: HopEndpoint)
    ensures AliveOnly([e]) == if e.alive then [e] else []
  {
    assert [e][..0] == [];
  }

  /** Dead endpoints are left out and the others stay in the order of the list: the alive part of two
      lists in a row is their alive parts in a row. */
  lemma {:induction false} AliveInOrder(a: seq<HopEndpoint>, b: seq<HopEndpoint>)
    ensures AliveOnly(a + b) == AliveOnly(a) + AliveOnly(b)
    decreases |b|
  {
    if b == [] {
      assert a + b == a;
    } else {
      var n := |b| - 1;
      assert (a + b)[..|a| + n] == a + b[..n] && (a + b)[|a| + n] == b[n];
      AliveInOrder(a, b[..n]);
    }
  }

  /** The endpoints a pick lists: the alive ones, or all when none is alive. */
  function Candidates(eps: seq<HopEndpoint>): seq<HopEndpoint>
    reads eps
  {
    if AliveOnly(eps) == [] then eps else AliveOnly(eps)
  }

  datatype PickResult = Picked(order: seq<HopEndpoint>) | Panics

  /** The counter value at which a pick goes wrong: past 2^63 the conversion to int is negative, and
      so is the index unless the candidates divide it. */
  ghost predicate GoodCounter(counter: nat, n: nat) {
    n > 0 && (counter < MAX_INT64 || (0x1_0000_0000_0000_0000 - counter) % n == 0)
  }

  class RoundRobinSelector {
    var counter: nat

    constructor ()
      ensures counter == 0
    {
      counter := 0;
    }

    /** Pick lists the candidates once each, rotated by the counter, which advances by one.  It
        panics exactly when there is no endpoint at all or the counter has gone bad. */
    method Pick(eps: seq<HopEndpoint>) returns (r: PickResult)
      requires counter < 0x1_0000_0000_0000_0000
      modifies this
      ensures counter == (old(counter) + 1) % 0x1_0000_0000_0000_0000
      ensures r.Picked? <==> GoodCounter(old(counter), |Candidates(eps)|)
      ensures r.Picked? ==> Candidates(eps) != [] && r.order == Listed(Candidates(eps), old(counter))
    {
      hide GoodCounter, GoMod, Rotation, AliveOnly;
      var alive := Alive(eps);
      if |alive| == 0 {
        alive := eps;
      }
      var n := |alive|;
      var c := counter;
      counter := (counter + 1) % 0x1_0000_0000_0000_0000;
      if n == 0 {
        NoneIsBad(c);
        return Panics;
      }
      var start := GoMod(Signed64(c), n);
      StartIsGood(c, n);
      if start < 0 {
        return Panics;
      }
      var order := Rotate(alive, start);
      return Picked(order);
    }

    method Rotate(alive: seq<HopEndpoint>, start: nat) returns (result: seq<HopEndpoint>)
      requires start < |alive|
      ensures result == Rotation(alive, start)
    {
      hide Rotation, GoMod;
      var n := |alive|;
      result := [];
      RotationEnds(alive, start);
      for i := 0 to n
        invariant result == Rotation(alive, start)[..i]
      {
        var k := GoMod(start + i, n);
        RotationAt(alive, start, i);
        result := result + [alive[k]];
      }
    }

    method Alive(eps: seq<HopEndpoint>) returns (out: seq<HopEndpoint>)
      ensures out == AliveOnly(eps)
    {
      out := [];
      for i := 0 to |eps|
        invariant out == AliveOnly(eps[..i])
      {
        assert eps[..i + 1][..i] == eps[..i];
        if eps[i].alive {
          out := out + [eps[i]];
        }
      }
      assert eps[..|eps|] == eps;
    }
  }

  lemma ModOnce(a: nat, n: nat)
    requires 0 < n && a < 2 * n
    ensures a % n == if a < n then a else a - n
  {
    var q := a / n;
    assert q * n + a % n == a;
    assert q >= 2 ==> q * n >= 2 * n;
    assert q <= 0 ==> q * n <= 0;
  }

  /** The order in which a pick at this counter lists n candidates. */
  function Listed<T>(candidates: seq<T>, counter: nat): seq<T>
    requires candidates != []
  {
    Rotation(candidates, if counter < MAX_INT64 then counter % |candidates| else 0)
  }

  /** Every candidate is listed as often as it is a candidate: the order is a permutation. */
  lemma ListedIsPermutation<T>(candidates: seq<T>, counter: nat)
    requires candidates != []
    ensures multiset(Listed(candidates, counter)) == multiset(candidates)
  {
    var k := if counter < MAX_INT64 then counter % |candidates| else 0;
    assert candidates == candidates[..k] + candidates[k..];
  }

  lemma NoneIsBad(counter: nat)
    ensures !GoodCounter(counter, 0)
  {
  }

  lemma StartIsGood(counter: nat, n: nat)
    requires n > 0 && counter < 0x1_0000_0000_0000_0000
    ensures var start := GoMod(Signed64(counter), n);
            && (start >= 0 <==> GoodCounter(counter, n))
            && (start >= 0 ==> start == if counter < MAX_INT64 then counter % n else 0)
            && start < n
  {
  }

  lemma RotationEnds<T>(s: seq<T>, start: nat)
    requires start <= |s|
    ensures Rotation(s, start)[..0] == [] && |Rotation(s, start)| == |s|
    ensures Rotation(s, start)[..|s|] == Rotation(s, start)
  {
  }

  lemma RotationAt<T>(s: seq<T>, start: nat, i: nat)
    requires start < |s| && i < |s|
    ensures 0 <= GoMod(start + i, |s|) < |s|
    ensures Rotation(s, start)[..i + 1] == Rotation(s, start)[..i] + [s[GoMod(start + i, |s|)]]
  {
    ModOnce(start + i, |s|);
  }

  lemma ModShift(c: nat, j: nat, n: nat)
    requires n > 0 && j < n
    ensures (c + j) % n == if c % n + j < n then c % n + j else c % n + j - n
  {
    var q, r := c / n, c % n;
    assert c == q * n + r;
    var t := if r + j < n then r + j else r + j - n;
    var p := if r + j < n then q else q + 1;
    assert c + j == p * n + t by {
      assert (q + 1) * n == q * n + n;
    }
    ModUnique(c + j, n, p, t);
  }

  lemma ModUnique(a: nat, n: nat, p: nat, t: nat)
    requires n > 0 && a == p * n + t && t < n
    ensures a % n == t
  {
    var q := a / n;
    assert a == q * n + a % n;
    Multiples(q, p, n);
    Multiples(p, q, n);
  }

  lemma {:induction false} Multiples(a: int, b: int, n: nat)
    ensures a > b ==> a * n >= b * n + n
    decreases a - b
  {
    if a > b + 1 {
      Multiples(a - 1, b, n);
      assert (a - 1) * n == a * n - n;
    } else if a == b + 1 {
      assert (b + 1) * n == b * n + n;
    }
  }

  /** A pick lists first the candidate that the counter points at. */
  lemma FirstListed<T>(candidates: seq<T>, counter: nat)
    requires candidates != [] && counter < MAX_INT64
    ensures Listed(candidates, counter)[0] == candidates[counter % |candidates|]
  {
  }

  /** What m consecutive picks from this counter on list first, while the candidates stay the same. */
  function Firsts<T>(candidates: seq<T>, counter: nat, m: nat): (firsts: seq<T>)
    requires candidates != []
    ensures |firsts| == m
  {
    seq(m, j requires 0 <= j < m => Listed(candidates, counter + j)[0])
  }

  /** The first choices of one round of picks are the candidates, in the order its first pick lists. */
  lemma OneRound<T>(candidates: seq<T>, counter: nat)
    requires candidates != [] && counter + |candidates| <= MAX_INT64
    ensures Firsts(candidates, counter, |candidates|) == Listed(candidates, counter)
  {
    var n := |candidates|;
    forall j: nat | j < n
      ensures Firsts(candidates, counter, n)[j] == Listed(candidates, counter)[j]
    {
      FirstListed(candidates, counter + j);
      ModShift(counter, j, n);
    }
  }

  /** Round-robin fairness: over any k rounds of picks with the same candidates, each of them is
      listed first exactly k times (k times for each place it has among them). */
  lemma {:induction false} RoundRobinIsFair<T>(candidates: seq<T>, counter: nat, k: nat, e: T)
    requires candidates != [] && counter + k * |candidates| <= MAX_INT64
    ensures multiset(Firsts(candidates, counter, k * |candidates|))[e] == k * multiset(candidates)[e]
    decreases k
  {
    hide Listed;
    if k > 0 {
      var n, before := |candidates|, (k - 1) * |candidates|;
      assert k * n == before + n;
      RoundRobinIsFair(candidates, counter, k - 1, e);
      OneRound(candidates, counter + before);
      ListedIsPermutation(candidates, counter + before);
      assert Firsts(candidates, counter, k * n)
          == Firsts(candidates, counter, before) + Firsts(candidates, counter + before, n);
    }
  }

  /** Callers that pick k rounds from a selector while no endpoint's health changes. */
  method PickRounds(selector: RoundRobinSelector, eps: seq<HopEndpoint>, k: nat) returns (firsts: seq<HopEndpoint>)
    requires eps != [] && selector.counter + k * |Candidates(eps)| <= MAX_INT64
    modifies selector
    ensures selector.counter == old(selector.counter) + k * |Candidates(eps)|
    ensures forall e <- eps :: multiset(firsts)[e] == k * multiset(Candidates(eps))[e]
  {
    hide Listed, AliveOnly;
    ghost var candidates, c := Candidates(eps), selector.counter;
    CandidatesAre(eps);
    firsts := [];
    ghost var total := k * |candidates|;
    while |firsts| < k * |Candidates(eps)|
      invariant |firsts| <= total && selector.counter == c + |firsts|
      invariant firsts == Firsts(candidates, c, |firsts|)
      decreases total - |firsts|
    {
      var picked := selector.Pick(eps);
      ListedSame(candidates, selector.counter - 1);
      firsts := firsts + [picked.order[0]];
    }
    forall e | e in eps ensures multiset(firsts)[e] == k * multiset(candidates)[e] {
      RoundRobinIsFair(candidates, c, k, e);
    }
  }

  // ---- the pool ----

  function Identities(addrs: seq<HopAddr>): (ids: seq<string>)
    ensures |ids| == |addrs| && forall i | 0 <= i < |addrs| :: ids[i] == addrs[i].Identity()
  {
    seq(|addrs|, i requires 0 <= i < |addrs| => addrs[i].Identity())
  }

  /** The last position of id, or -1. */
  function LastIndex(ids: seq<string>, id: string): (k: int)
    ensures -1 <= k < |ids|
    ensures k >= 0 <==> id in ids
    ensures k >= 0 ==> ids[k] == id && forall j | k < j < |ids| :: ids[j] != id
  {
    if ids == [] then -1
    else if ids[|ids| - 1] == id then |ids| - 1
    else LastIndex(ids[..|ids| - 1], id)
  }

  /** The addresses of a pool after a reload: an endpoint that is kept has the last address of its
      identity, wherever it is listed. */
  function Reloaded(oldIds: seq<string>, addrs: seq<HopAddr>): (r: seq<HopAddr>)
    ensures |r| == |addrs|
  {
    var ids := Identities(addrs);
    seq(|addrs|, i requires 0 <= i < |addrs| =>
      if ids[i] in oldIds then addrs[LastIndex(ids, ids[i])] else addrs[i])
  }

  /** A reload ends up with the requested addresses exactly when no two entries of the request have
      the identity of an existing endpoint in common while differing elsewhere. */
  ghost predicate Consistent(oldIds: seq<string>, addrs: seq<HopAddr>) {
    forall i, j | 0 <= i < j < |addrs| ::
      addrs[i].Identity() == addrs[j].Identity() && addrs[i].Identity() in oldIds ==> addrs[i] == addrs[j]
  }

  lemma ReloadAgreesIff(oldIds: seq<string>, addrs: seq<HopAddr>)
    ensures Reloaded(oldIds, addrs) == addrs <==> Consistent(oldIds, addrs)
  {
    hide HopAddr.Identity, LastIndex;
    var ids, r := Identities(addrs), Reloaded(oldIds, addrs);
    if Consistent(oldIds, addrs) {
      forall i | 0 <= i < |addrs| ensures r[i] == addrs[i] {
        assert ids[i] in ids;
      }
    } else {
      var i, j :| 0 <= i < j < |addrs| && ids[i] == ids[j] && ids[i] in oldIds && addrs[i] != addrs[j];
      assert r[i] == r[j];
    }
  }

  /** A reload can disagree: the same hop written with and without the default path is one identity,
      so an endpoint that is kept ends up with the later entry's address in both places. */
  lemma ReloadCanDisagree()
    ensures var a := HopAddr("ip", "10.0.0.1", 443, "edge.example", true, "");
            var b := a.(tunnelPath := "/tunnel");
            a.Identity() == b.Identity() && Reloaded([a.Identity()], [a, b]) == [b, b] != [a, b]
  {
    hide Itoa;
    var a := HopAddr("ip", "10.0.0.1", 443, "edge.example", true, "");
    var b := a.(tunnelPath := "/tunnel");
    assert Identities([a, b]) == [b.Identity(), b.Identity()];
    assert LastIndex([b.Identity(), b.Identity()], b.Identity()) == 1;
  }

  /** And it stays so: once a reload has disagreed, reloading the same request disagrees again. */
  lemma DisagreementIsForGood(oldIds: seq<string>, addrs: seq<HopAddr>)
    requires Reloaded(oldIds, addrs) != addrs
    ensures Reloaded(Identities(Reloaded(oldIds, addrs)), addrs) != addrs
  {
    ReloadKeepsIds(oldIds, addrs);
    ReloadAgreesIff(oldIds, addrs);
    ReloadAgreesIff(Identities(addrs), addrs);
    hide HopAddr.Identity, Reloaded;
    var i, j :| 0 <= i < j < |addrs| && addrs[i].Identity() == addrs[j].Identity() && addrs[i] != addrs[j];
    assert Identities(addrs)[i] in Identities(addrs);
  }

  lemma ReloadKeepsIds(oldIds: seq<string>, addrs: seq<HopAddr>)
    ensures Identities(Reloaded(oldIds, addrs)) == Identities(addrs)
  {
    hide HopAddr.Identity, LastIndex;
    var ids := Identities(addrs);
    forall i | 0 <= i < |addrs| && ids[i] in oldIds
      ensures ids[LastIndex(ids, ids[i])] == ids[i]
    {
      assert ids[i] in ids;
    }
  }

  ghost predicate AllWellFormed(addrs: seq<HopAddr>) {
    forall a <- addrs :: WellFormed(a)
  }

  /** One of the addresses names the same hop. */
  ghost predicate NamedBy(addrs: seq<HopAddr>, a: HopAddr) {
    exists k | 0 <= k < |addrs| :: SameHop(addrs[k], a)
  }

  lemma NamedByIdentity(addrs: seq<HopAddr>, a: HopAddr)
    requires AllWellFormed(addrs) && WellFormed(a)
    ensures var k := LastIndex(Identities(addrs), a.Identity());
            if a.Identity() in Identities(addrs) then k >= 0 && SameHop(addrs[k], a) else !NamedBy(addrs, a)
    ensures a.Identity() in Identities(addrs) <==> NamedBy(addrs, a)
  {
    hide HopAddr.Identity, SameHop, WellFormed;
    forall k | 0 <= k < |addrs|
      ensures addrs[k].Identity() == a.Identity() <==> SameHop(addrs[k], a)
    {
      IdentityIsTheHop(addrs[k], a);
    }
    if NamedBy(addrs, a) {
      var k :| 0 <= k < |addrs| && SameHop(addrs[k], a);
      assert Identities(addrs)[k] == a.Identity();
    }
  }

  /** The places of a reloaded list: the old endpoint of the same hop if there was one, and else none
      of the old ones; two places of different hops never share an endpoint. */
  ghost predicate HistoryFollowsHop(oldAddrs: seq<HopAddr>, was: seq<HopEndpoint>, addrs: seq<HopAddr>,
                                    now: seq<HopEndpoint>)
  {
    && |was| == |oldAddrs| && |now| == |addrs|
    && (forall i | 0 <= i < |addrs| && NamedBy(oldAddrs, addrs[i]) ::
          exists k | 0 <= k < |was| :: SameHop(oldAddrs[k], addrs[i]) && now[i] == was[k])
    && (forall i | 0 <= i < |addrs| && !NamedBy(oldAddrs, addrs[i]) :: now[i] !in was)
    && (forall i, j | 0 <= i < |addrs| && 0 <= j < |addrs| && now[i] == now[j] :: SameHop(addrs[i], addrs[j]))
  }

  lemma HistoryByIdentity(oldAddrs: seq<HopAddr>, was: seq<HopEndpoint>, addrs: seq<HopAddr>, now: seq<HopEndpoint>)
    requires AllWellFormed(oldAddrs) && AllWellFormed(addrs) && |was| == |oldAddrs| && |now| == |addrs|
    requires forall i | 0 <= i < |addrs| ::
               var k := LastIndex(Identities(oldAddrs), addrs[i].Identity());
               if addrs[i].Identity() in Identities(oldAddrs) then now[i] == was[k] else now[i] !in was
    requires forall i, j | 0 <= i < |addrs| && 0 <= j < |addrs| && now[i] == now[j] ::
               addrs[i].Identity() == addrs[j].Identity()
    ensures HistoryFollowsHop(oldAddrs, was, addrs, now)
  {
    hide HopAddr.Identity, LastIndex, SameHop, WellFormed, NamedBy, Identities;
    forall i | 0 <= i < |addrs|
      ensures if NamedBy(oldAddrs, addrs[i]) then
                exists k | 0 <= k < |was| :: SameHop(oldAddrs[k], addrs[i]) && now[i] == was[k]
              else now[i] !in was
    {
      NamedByIdentity(oldAddrs, addrs[i]);
    }
    forall i, j | 0 <= i < |addrs| && 0 <= j < |addrs| && now[i] == now[j]
      ensures SameHop(addrs[i], addrs[j])
    {
      IdentityIsTheHop(addrs[i], addrs[j]);
    }
  }

  class Pool {
    var endpoints: seq<HopEndpoint>
    const selector: RoundRobinSelector

    constructor (addrs: seq<HopAddr>)
      ensures Addrs() == addrs && fresh(selector) && selector.counter == 0
      ensures forall e <- endpoints :: fresh(e) && e.alive && e.latency == None
    {
      selector := new RoundRobinSelector();
      new;
      endpoints := [];
      for i := 0 to |addrs|
        modifies this
        invariant |endpoints| == i && fresh(selector) && selector.counter == 0
        invariant forall k | 0 <= k < i :: fresh(endpoints[k]) && endpoints[k].addr == addrs[k]
                                           && endpoints[k].alive && endpoints[k].latency == None
      {
        var e := new HopEndpoint(addrs[i]);
        endpoints := endpoints + [e];
      }
      assert Addrs() == addrs;
    }

    function Addrs(): (addrs: seq<HopAddr>)
      reads this, endpoints
    {
      seq(|endpoints|, i requires 0 <= i < |endpoints| reads this, endpoints => endpoints[i].addr)
    }

    ghost function Ids(): seq<string>
      reads this, endpoints
    {
      Identities(Addrs())
    }

    /** UpdateEndpoints: entry i of the new list is the existing endpoint of its identity, with its
        health and latency untouched, or else a fresh one; the addresses are the reloaded ones.  When
        all addresses are well formed this means that history follows the hop: an entry is the old
        endpoint of the same type, address, port and path if there was one, and entries that differ
        in any of these are different endpoints. */
    method UpdateEndpoints(addrs: seq<HopAddr>)
      modifies this`endpoints, (set e | e in endpoints)`addr
      ensures |endpoints| == |addrs| && Addrs() == Reloaded(old(Ids()), addrs)
      ensures forall i | 0 <= i < |addrs| ::
                if addrs[i].Identity() in old(Ids()) then
                  endpoints[i] == old(endpoints)[LastIndex(old(Ids()), addrs[i].Identity())]
                else fresh(endpoints[i]) && endpoints[i].alive && endpoints[i].latency == None
      ensures AllWellFormed(old(Addrs())) && AllWellFormed(addrs) ==>
                HistoryFollowsHop(old(Addrs()), old(endpoints), addrs, endpoints)
    {
      hide HopAddr.Identity, LastIndex, AllWellFormed, HistoryFollowsHop;
      var existing := Existing();
      var next := Build(existing, addrs);
      endpoints := next;
      if AllWellFormed(old(Addrs())) && AllWellFormed(addrs) {
        HistoryByIdentity(old(Addrs()), old(endpoints), addrs, endpoints);
      }
    }

    /** UpdateEndpoints' second loop. */
    method Build(existing: map<string, HopEndpoint>, addrs: seq<HopAddr>) returns (next: seq<HopEndpoint>)
      requires forall i <- existing, j <- existing :: i != j ==> existing[i] != existing[j]
      modifies existing.Values`addr
      ensures |next| == |addrs|
      ensures forall k | 0 <= k < |addrs| :: Placed(existing, Identities(addrs)[k], next[k])
                                             && (Identities(addrs)[k] !in existing ==> fresh(next[k]))
      ensures forall k | 0 <= k < |addrs| ::
                next[k].addr == addrs[if Identities(addrs)[k] in existing
                                      then LastIndex(Identities(addrs), Identities(addrs)[k]) else k]
      ensures forall k, l | 0 <= k < |addrs| && 0 <= l < |addrs| ::
                next[k] == next[l] ==> Identities(addrs)[k] == Identities(addrs)[l]
    {
      hide HopAddr.Identity, LastIndex, Identities, UpToDate;
      ghost var ids := Identities(addrs);
      next := [];
      UpToDateFirst(existing, addrs);
      for i := 0 to |addrs|
        modifies existing.Values`addr
        invariant |next| == i
        invariant forall k | 0 <= k < i :: Placed(existing, ids[k], next[k])
        invariant forall k | 0 <= k < i :: ids[k] !in existing ==> fresh(next[k]) && next[k].addr == addrs[k]
        invariant UpToDate(existing, addrs, ids[..i])
        invariant forall k, l | 0 <= k < i && 0 <= l < i :: next[k] == next[l] ==> ids[k] == ids[l]
      {
        var e := PlaceNext(existing, addrs, i);
        next := next + [e];
      }
      assert ids[..|addrs|] == ids;
      forall k | 0 <= k < |addrs| && ids[k] in existing
        ensures next[k].addr == addrs[LastIndex(ids, ids[k])]
      {
        UpToDateAt(existing, addrs, ids, k);
      }
    }

    method PlaceNext(existing: map<string, HopEndpoint>, addrs: seq<HopAddr>, i: nat) returns (e: HopEndpoint)
      requires i < |addrs|
      requires forall i <- existing, j <- existing :: i != j ==> existing[i] != existing[j]
      requires UpToDate(existing, addrs, Identities(addrs)[..i])
      modifies existing.Values`addr
      ensures UpToDate(existing, addrs, Identities(addrs)[..i + 1])
      ensures Placed(existing, Identities(addrs)[i], e)
      ensures Identities(addrs)[i] !in existing ==> fresh(e) && e.addr == addrs[i]
    {
      hide HopAddr.Identity, LastIndex, Identities;
      e := Place(existing, addrs[i]);
      LastOfLonger(Identities(addrs), i);
    }

    /** The endpoint for one address: the existing one, brought up to date, or a fresh one. */
    method Place(existing: map<string, HopEndpoint>, a: HopAddr) returns (e: HopEndpoint)
      requires forall i <- existing, j <- existing :: i != j ==> existing[i] != existing[j]
      modifies existing.Values`addr
      ensures if a.Identity() in existing then e == existing[a.Identity()]
              else fresh(e) && e.alive && e.latency == None
      ensures e.addr == a
      ensures forall id <- existing :: id != a.Identity() ==> existing[id].addr == old(existing[id].addr)
    {
      hide HopAddr.Identity;
      if a.Identity() in existing {
        e := existing[a.Identity()];
        if e.addr != a {
          e.addr := a;
        }
      } else {
        e := new HopEndpoint(a);
      }
    }

    method ReportResult(e: HopEndpoint, success: bool, latency: real)
      modifies e`alive, e`latency
      ensures e.alive == success
      ensures e.latency == if success then Ewma(old(e.latency), latency) else old(e.latency)
    {
      if success {
        e.alive := true;
        e.RecordLatency(latency);
      } else {
        e.alive := false;
      }
    }

    /** DialWithFallback tries the picked endpoints in order until one succeeds; `outcomes` are the
        results of the attempts, a latency or a failure.  Exactly the endpoints that were tried and
        failed are marked dead; after a total failure all are, so the next call lists all of them. */
    method DialWithFallback(outcomes: seq<Option<real>>) returns (r: DialResult, tried: seq<HopEndpoint>)
      requires selector.counter < 0x1_0000_0000_0000_0000 && |outcomes| >= |endpoints|
      modifies selector, (set e | e in endpoints)`alive, (set e | e in endpoints)`latency
      ensures selector.counter == (old(selector.counter) + 1) % 0x1_0000_0000_0000_0000
      ensures r.Crashed? <==> !GoodCounter(old(selector.counter), old(|Candidates(endpoints)|))
      ensures r.Crashed? ==> tried == []
      ensures !r.Crashed? ==>
                var candidates := old(Candidates(endpoints));
                candidates != [] && tried <= Listed(candidates, old(selector.counter))
                && (r.AllUnavailable? ==> tried == Listed(candidates, old(selector.counter)))
      ensures r.Tunnel? ==> tried != [] && r.endpoint == tried[|tried| - 1] && outcomes[|tried| - 1].Some?
      ensures forall j | 0 <= j < |tried| - (if r.Tunnel? then 1 else 0) :: outcomes[j].None?
      ensures forall e <- endpoints ::
                e.alive == ((r.Tunnel? && e == r.endpoint) || (e !in tried && old(e.alive)))
      ensures forall e <- endpoints ::
                e.latency == if r.Tunnel? && e == r.endpoint then Ewma(old(e.latency), outcomes[|tried| - 1].value)
                             else old(e.latency)
      ensures r.AllUnavailable? ==> Candidates(endpoints) == endpoints && forall e <- endpoints :: !e.alive
    {
      hide GoodCounter, AliveOnly, Listed, Ewma;
      CandidatesAre(endpoints);
      ghost var candidates := Candidates(endpoints);
      var picked := selector.Pick(endpoints);
      if picked.Panics? {
        return Crashed, [];
      }
      ListedSame(candidates, old(selector.counter));
      r, tried := TryInOrder(picked.order, outcomes);
      if r.AllUnavailable? {
        CandidatesAre(endpoints);
      }
    }

    /** The loop over the picked endpoints. */
    method TryInOrder(order: seq<HopEndpoint>, outcomes: seq<Option<real>>)
      returns (r: DialResult, tried: seq<HopEndpoint>)
      requires |outcomes| >= |order|
      modifies (set e | e in order)`alive, (set e | e in order)`latency
      ensures !r.Crashed? && tried <= order && (r.AllUnavailable? ==> tried == order)
      ensures r.Tunnel? ==> tried != [] && r.endpoint == tried[|tried| - 1] && outcomes[|tried| - 1].Some?
      ensures forall j | 0 <= j < |tried| - (if r.Tunnel? then 1 else 0) :: outcomes[j].None?
      ensures forall e <- order :: e.alive == ((r.Tunnel? && e == r.endpoint) || (e !in tried && old(e.alive)))
      ensures forall e <- order ::
                e.latency == if r.Tunnel? && e == r.endpoint then Ewma(old(e.latency), outcomes[|tried| - 1].value)
                             else old(e.latency)
    {
      hide Ewma;
      tried := [];
      for i := 0 to |order|
        modifies (set e | e in order)`alive, (set e | e in order)`latency
        invariant tried == order[..i]
        invariant forall j | 0 <= j < i :: outcomes[j].None?
        invariant forall e <- order :: e.alive == (e !in tried && old(e.alive)) && e.latency == old(e.latency)
      {
        var ep := order[i];
        assert ep in order;
        tried := tried + [ep];
        assert tried == order[..i + 1];
        var ok := outcomes[i].Some?;
        ReportResult(ep, ok, if ok then outcomes[i].value else 0.0);
        if ok {
          return Tunnel(ep), tried;
        }
      }
      return AllUnavailable, tried;
    }

    /** The index by identity of the current endpoints; the last of an identity wins. */
    method Existing() returns (m: map<string, HopEndpoint>)
      ensures forall id :: id in m <==> id in Ids()
      ensures forall id <- m :: m[id] == endpoints[LastIndex(Ids(), id)]
      ensures forall i <- m, j <- m :: i != j ==> m[i] != m[j]
      ensures forall id <- m :: m[id] in endpoints
    {
      hide HopAddr.Identity, LastIndex;
      m := map[];
      ghost var ids := Ids();
      for i := 0 to |endpoints|
        invariant forall id :: id in m <==> id in ids[..i]
        invariant forall id <- m :: LastIndex(ids[..i], id) >= 0 && m[id] == endpoints[LastIndex(ids[..i], id)]
      {
        LastOfLonger(ids, i);
        assert ids[..i + 1] == ids[..i] + [ids[i]];
        m := m[endpoints[i].addr.Identity() := endpoints[i]];
      }
      assert ids[..|endpoints|] == ids;
      forall id | id in m ensures m[id].addr.Identity() == id {
        assert ids[LastIndex(ids, id)] == id;
      }
    }
  }

  datatype DialResult = Tunnel(endpoint: HopEndpoint) | AllUnavailable | Crashed

  lemma CandidatesAre(eps: seq<HopEndpoint>)
    ensures forall e <- Candidates(eps) :: e in eps
    ensures forall e <- eps :: e.alive ==> e in Candidates(eps)
    ensures |Candidates(eps)| <= |eps|
    ensures (forall e <- eps :: !e.alive) ==> Candidates(eps) == eps
    ensures (exists e <- eps :: !e.alive && e in Candidates(eps)) ==> forall e <- eps :: !e.alive
  {
    AliveMembers(eps);
    hide AliveOnly;
    if AliveOnly(eps) != [] {
      assert AliveOnly(eps)[0] in AliveOnly(eps);
    }
  }

  lemma ListedSame<T>(candidates: seq<T>, counter: nat)
    requires candidates != []
    ensures |Listed(candidates, counter)| == |candidates|
    ensures forall x <- Listed(candidates, counter) :: x in candidates
    ensures forall x <- candidates :: x in Listed(candidates, counter)
  {
    ListedIsPermutation(candidates, counter);
    forall x ensures x in candidates <==> x in multiset(candidates) { }
  }

  /** An entry of the new list for identity id: the existing endpoint, or one without history. */
  ghost predicate Placed(existing: map<string, HopEndpoint>, id: string, e: HopEndpoint)
    reads e`alive, e`latency
  {
    if id in existing then e == existing[id] else e.alive && e.latency == None
  }

  /** Every kept endpoint has the last of the addresses listed so far for its identity. */
  ghost predicate UpToDate(existing: map<string, HopEndpoint>, addrs: seq<HopAddr>, ids: seq<string>)
    requires |ids| <= |addrs|
    reads existing.Values`addr
  {
    forall id <- existing :: LastIndex(ids, id) >= 0 ==> existing[id].addr == addrs[LastIndex(ids, id)]
  }

  lemma UpToDateFirst(existing: map<string, HopEndpoint>, addrs: seq<HopAddr>)
    ensures UpToDate(existing, addrs, Identities(addrs)[..0])
  {
  }

  lemma UpToDateAt(existing: map<string, HopEndpoint>, addrs: seq<HopAddr>, ids: seq<string>, k: nat)
    requires |ids| <= |addrs| && k < |ids| && UpToDate(existing, addrs, ids) && ids[k] in existing
    ensures LastIndex(ids, ids[k]) >= 0 && existing[ids[k]].addr == addrs[LastIndex(ids, ids[k])]
  {
  }

  lemma LastOfLonger(ids: seq<string>, i: nat)
    requires i < |ids|
    ensures forall id :: LastIndex(ids[..i + 1], id) == if id == ids[i] then i else LastIndex(ids[..i], id)
  {
    var longer := ids[..i + 1];
    assert longer[..|longer| - 1] == ids[..i] && longer[|longer| - 1] == ids[i];
    forall id ensures LastIndex(longer, id) == if id == ids[i] then i else LastIndex(ids[..i], id) {
    }
  }

  // ---- the relay's dialers ----

  datatype DialerKey = DialerKey(serviceId: string, idc: string)

  class Dialers {
    var dialers: map<DialerKey, Pool>

    constructor ()
      ensures dialers == map[]
    {
      dialers := map[];
    }

    /** dialerFor: the pool kept for a route is reused, and reloaded when its addresses differ from
        the requested hops.  The result has exactly the requested addresses unless the request is
        inconsistent with the pool that was there (see ReloadAgreesIff). */
    method DialerFor(key: DialerKey, hops: seq<HopAddr>) returns (d: Pool)
      modifies this, (if key in dialers then {dialers[key]} else {})`endpoints,
               (if key in dialers then set e | e in dialers[key].endpoints else {})`addr
      ensures dialers == old(dialers)[key := d]
      ensures key in old(dialers) ==>
                d == old(dialers)[key]
                && d.Addrs() == (if old(dialers[key].Addrs()) == hops then hops
                                 else Reloaded(old(dialers[key].Ids()), hops))
      ensures key !in old(dialers) ==> fresh(d) && d.Addrs() == hops
      ensures key in old(dialers) && old(dialers[key].Addrs()) == hops ==>
                d.endpoints == old(dialers[key].endpoints)
      ensures key in old(dialers) ==>
                forall e <- old(dialers[key].endpoints) :: e.alive == old(e.alive) && e.latency == old(e.latency)
      ensures key in old(dialers) && old(dialers[key].Addrs()) != hops ==>
                var ids := old(dialers[key].Ids());
                |d.endpoints| == |hops| && forall i | 0 <= i < |hops| ::
                  if hops[i].Identity() in ids then
                    d.endpoints[i] == old(dialers[key].endpoints)[LastIndex(ids, hops[i].Identity())]
                  else fresh(d.endpoints[i]) && d.endpoints[i].alive && d.endpoints[i].latency == None
      ensures d.Addrs() == hops <==>
                key !in old(dialers) || old(dialers[key].Addrs()) == hops
                || Consistent(old(dialers[key].Ids()), hops)
    {
      hide Reloaded, Consistent, Identities, LastIndex, HopAddr.Identity;
      if key in dialers {
        d := dialers[key];
        assert dialers[key := d] == dialers;
        ReloadAgreesIff(d.Ids(), hops);
        if d.Addrs() != hops {
          d.UpdateEndpoints(hops);
        }
        return;
      }
      d := new Pool(hops);
      dialers := dialers[key := d];
    }

    /** cleanStaleDialers keeps exactly the dialers of current routes, as they are. */
    method CleanStale(routes: map<string, seq<string>>)
      modifies this
      ensures forall k :: k in dialers <==> k in old(dialers) && k.serviceId in routes && k.idc in routes[k.serviceId]
      ensures forall k <- dialers :: dialers[k] == old(dialers)[k]
    {
      var left := dialers.Keys;
      while left != {}
        invariant left <= dialers.Keys <= old(dialers).Keys
        invariant forall k <- old(dialers) ::
                    k in dialers <==> k in left || (k.serviceId in routes && k.idc in routes[k.serviceId])
        invariant forall k <- dialers :: dialers[k] == old(dialers)[k]
        decreases |left|
      {
        var k :| k in left;
        left := left - {k};
        if !(k.serviceId in routes && k.idc in routes[k.serviceId]) {
          dialers := dialers - {k};
        }
      }
    }
  }
}
