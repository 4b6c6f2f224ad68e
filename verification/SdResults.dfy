/** What SdClient.discover of mpu/someip/sd.py collects, and what that means in terms of the messages received. */
module SdResults {
  import opened Bytes
  import opened SdMessages

  // ---- the client's fold ----

  /** One element of discover's result. */
  datatype Found = Found(serviceId: u16, instanceId: u16, address: seq<byte>, port: u16) {
    function Key(): (u16, u16) {
      (serviceId, instanceId)
    }
  }

  const ANY_ID: int := 0xFFFF

  predicate Wanted(service: int, instance: int, e: Entry) {
    && e.entryType == ENTRY_OFFER_SERVICE
    && (service != ANY_ID ==> e.serviceId == service)
    && (instance != ANY_ID ==> e.instanceId == instance)
  }

  predicate IsEndpoint(o: SdOption) {
    o.optionType == OPT_IP4_ENDPOINT && o.endpoint.Some?
  }

  function FirstEndpoint(os: seq<SdOption>): Option<Endpoint> {
    if os == [] then None else if IsEndpoint(os[0]) then os[0].endpoint else FirstEndpoint(os[1..])
  }

  /** The assignments one message makes: one per wanted entry, all with the message's first endpoint. */
  function Hits(service: int, instance: int, es: seq<Entry>, at: Option<Endpoint>): seq<Found> {
    if es == [] then []
    else
      var n := |es| - 1;
      Hits(service, instance, es[..n], at)
      + if Wanted(service, instance, es[n]) && at.Some?
        then [Found(es[n].serviceId, es[n].instanceId, at.value.address, at.value.port)] else []
  }

  function MessageHits(service: int, instance: int, r: Outcome): seq<Found> {
    if r.Parsed? then Hits(service, instance, r.entries, FirstEndpoint(r.options)) else []
  }

  function AllHits(service: int, instance: int, packets: seq<seq<byte>>): seq<Found> {
    if packets == [] then []
    else
      var n := |packets| - 1;
      AllHits(service, instance, packets[..n]) + MessageHits(service, instance, ParseSd(packets[n]))
  }

  /** Assignment to an insertion-ordered dictionary: an old key keeps its place. */
  function Assign(d: seq<Found>, f: Found): (r: seq<Found>)
    ensures |r| >= |d|
  {
    if d == [] then [f]
    else if d[0].Key() == f.Key() then [f] + d[1..]
    else [d[0]] + Assign(d[1..], f)
  }

  function Dedup(hits: seq<Found>): seq<Found> {
    if hits == [] then [] else Assign(Dedup(hits[..|hits| - 1]), hits[|hits| - 1])
  }

  // ---- what the fold means ----

  /** Where a key is assigned first. */
  function FirstHit(hits: seq<Found>, key: (u16, u16)): (n: nat)
    ensures n <= |hits|
  {
    if hits == [] then 0
    else
      var n := FirstHit(hits[..|hits| - 1], key);
      if n < |hits| - 1 || hits[|hits| - 1].Key() == key then n else |hits|
  }

  /** What a key is assigned last. */
  function LastHit(hits: seq<Found>, key: (u16, u16)): Option<Found> {
    if hits == [] then None
    else if hits[|hits| - 1].Key() == key then Some(hits[|hits| - 1])
    else LastHit(hits[..|hits| - 1], key)
  }

  predicate Has(d: seq<Found>, key: (u16, u16)) {
    exists i :: 0 <= i < |d| && d[i].Key() == key
  }

  lemma {:induction false} AssignExact(d: seq<Found>, f: Found)
    requires forall i, j :: 0 <= i < j < |d| ==> d[i].Key() != d[j].Key()
    ensures var r := Assign(d, f);
            && |r| == (if Has(d, f.Key()) then |d| else |d| + 1)
            && (forall i :: 0 <= i < |d| ==> r[i] == if d[i].Key() == f.Key() then f else d[i])
            && (|r| > |d| ==> r[|d|] == f)
    decreases |d|
  {
    if d != [] {
      if d[0].Key() != f.Key() {
        AssignExact(d[1..], f);
        assert Has(d[1..], f.Key()) <==> Has(d, f.Key()) by {
          if Has(d[1..], f.Key()) {
            var i :| 0 <= i < |d[1..]| && d[1..][i].Key() == f.Key();
            assert d[i + 1].Key() == f.Key();
          }
          if Has(d, f.Key()) {
            var i :| 0 <= i < |d| && d[i].Key() == f.Key();
            assert d[1..][i - 1].Key() == f.Key();
          }
        }
      }
    }
  }

  /** No key twice; exactly the assigned keys; in the order of their first assignments; each with the value of its last. */
  ghost predicate Deduplicates(d: seq<Found>, hits: seq<Found>) {
    && (forall i, j :: 0 <= i < j < |d| ==> d[i].Key() != d[j].Key())
    && (forall key :: Has(d, key) <==> LastHit(hits, key).Some?)
    && (forall i, j :: 0 <= i < j < |d| ==> FirstHit(hits, d[i].Key()) < FirstHit(hits, d[j].Key()))
    && (forall i :: 0 <= i < |d| ==> LastHit(hits, d[i].Key()) == Some(d[i]))
  }

  lemma {:induction false} HitLast(hits: seq<Found>, f: Found, key: (u16, u16))
    ensures LastHit(hits + [f], key) == if f.Key() == key then Some(f) else LastHit(hits, key)
    ensures FirstHit(hits + [f], key)
         == if FirstHit(hits, key) < |hits| || f.Key() == key then FirstHit(hits, key) else |hits| + 1
  {
    assert (hits + [f])[..|hits|] == hits;
  }

  lemma {:induction false} HitBoth(hits: seq<Found>, key: (u16, u16))
    ensures LastHit(hits, key).Some? <==> FirstHit(hits, key) < |hits|
    decreases |hits|
  {
    if hits != [] {
      HitBoth(hits[..|hits| - 1], key);
    }
  }

  lemma {:induction false} HasAfter(d: seq<Found>, r: seq<Found>, f: Found, key: (u16, u16))
    requires forall i, j :: 0 <= i < j < |d| ==> d[i].Key() != d[j].Key()
    requires r == Assign(d, f)
    ensures Has(r, key) <==> Has(d, key) || f.Key() == key
  {
    AssignExact(d, f);
    hide Assign;
    forall i | 0 <= i < |d| ensures r[i].Key() == d[i].Key() {
    }
    if Has(d, key) {
      var i :| 0 <= i < |d| && d[i].Key() == key;
      assert r[i].Key() == key;
    }
    if |r| > |d| {
      assert r[|d|].Key() == f.Key();
    }
    if Has(r, key) {
      var i :| 0 <= i < |r| && r[i].Key() == key;
      assert i < |d| ==> d[i].Key() == key;
    }
  }

  lemma {:induction false} ValueStep(d: seq<Found>, hits: seq<Found>, f: Found, i: nat)
    requires Deduplicates(d, hits) && i < |Assign(d, f)|
    ensures LastHit(hits + [f], Assign(d, f)[i].Key()) == Some(Assign(d, f)[i])
  {
    AssignExact(d, f);
    hide Assign, FirstHit, LastHit, Has;
    HitLast(hits, f, Assign(d, f)[i].Key());
  }

  lemma {:induction false} KnownKey(d: seq<Found>, hits: seq<Found>, key: (u16, u16))
    requires Deduplicates(d, hits)
    ensures Has(d, key) <==> FirstHit(hits, key) < |hits|
  {
    hide FirstHit, LastHit;
    HitBoth(hits, key);
  }

  lemma HasAt(d: seq<Found>, i: nat)
    requires i < |d|
    ensures Has(d, d[i].Key())
  {
  }

  lemma {:induction false} OrderStep(d: seq<Found>, hits: seq<Found>, f: Found, i: nat, j: nat)
    requires Deduplicates(d, hits) && i < j < |Assign(d, f)|
    ensures var r, longer := Assign(d, f), hits + [f];
            r[i].Key() != r[j].Key() && FirstHit(longer, r[i].Key()) < FirstHit(longer, r[j].Key())
  {
    AssignExact(d, f);
    var a, b := Assign(d, f)[i].Key(), Assign(d, f)[j].Key();
    hide Assign, FirstHit, LastHit, Has;
    HitLast(hits, f, a);
    HitLast(hits, f, b);
    KnownKey(d, hits, a);
    HasAt(d, i);
    assert a == d[i].Key();
    if j < |d| {
      assert b == d[j].Key();
    } else {
      assert b == f.Key();
      KnownKey(d, hits, b);
    }
  }

  lemma {:induction false} DedupStep(d: seq<Found>, hits: seq<Found>, f: Found)
    requires Deduplicates(d, hits)
    ensures Deduplicates(Assign(d, f), hits + [f])
  {
    var r, longer := Assign(d, f), hits + [f];
    forall key ensures Has(r, key) <==> LastHit(longer, key).Some? {
      HasAfter(d, r, f, key);
      HitLast(hits, f, key);
    }
    hide Assign, FirstHit, LastHit, Has;
    forall i | 0 <= i < |r| ensures LastHit(longer, r[i].Key()) == Some(r[i]) {
      ValueStep(d, hits, f, i);
    }
    forall i, j | 0 <= i < j < |r|
      ensures r[i].Key() != r[j].Key() && FirstHit(longer, r[i].Key()) < FirstHit(longer, r[j].Key())
    {
      OrderStep(d, hits, f, i, j);
    }
  }

  /** discover's result, whatever arrives, in terms of the assignments alone. */
  lemma {:induction false} DedupExact(hits: seq<Found>)
    ensures Deduplicates(Dedup(hits), hits)
    decreases |hits|
  {
    if hits != [] {
      var before, f := hits[..|hits| - 1], hits[|hits| - 1];
      DedupExact(before);
      DedupStep(Dedup(before), before, f);
      assert before + [f] == hits;
    }
  }

  // ---- the result, told from the messages by position ----

  /** Entry number `entry` of packet number `packet`, and the order in which the loops reach them. */
  datatype Place = Place(packet: int, entry: int) {
    predicate Before(other: Place) {
      packet < other.packet || (packet == other.packet && entry < other.entry)
    }
  }

  /** Option `j` is the first decoded IPv4 endpoint of a message. */
  predicate Leads(os: seq<SdOption>, j: int) {
    && 0 <= j < |os| && os[j].optionType == 4 && os[j].endpoint.Some?
    && forall m :: 0 <= m < j ==> os[m].optionType != 4 || os[m].endpoint == None
  }

  /** Entry `i` of a message is an offer that the search covers, and `f` its ids with the address and port of option `j`. */
  predicate Assigns(service: int, instance: int, es: seq<Entry>, os: seq<SdOption>, i: int, j: int, f: Found) {
    && 0 <= i < |es| && es[i].entryType == 1
    && (service == 0xFFFF || es[i].serviceId == service) && (instance == 0xFFFF || es[i].instanceId == instance)
    && Leads(os, j)
    && f.serviceId == es[i].serviceId && f.instanceId == es[i].instanceId
    && f.address == os[j].endpoint.value.address && f.port == os[j].endpoint.value.port
  }

  /** The assignments of one message, number `k`, each with its place. */
  ghost function MadeBy(service: int, instance: int, r: Outcome, k: int): iset<(Place, Found)> {
    iset i: int, j: int, f: Found | r.Parsed? && Assigns(service, instance, r.entries, r.options, i, j, f) :: (Place(k, i), f)
  }

  /** The assignments of all messages. */
  ghost function Made(service: int, instance: int, packets: seq<seq<byte>>): iset<(Place, Found)> {
    iset k: int, a: (Place, Found) | 0 <= k < |packets| && a in MadeBy(service, instance, ParseSd(packets[k]), k) :: a
  }

  /** A key's last assignment is `f`. */
  ghost predicate MadeLast(made: iset<(Place, Found)>, f: Found) {
    exists p: Place :: (p, f) in made && forall a :: a in made && p.Before(a.0) ==> a.1.Key() != f.Key()
  }

  /** One key is assigned before the other ever is. */
  ghost predicate MadeEarlier(made: iset<(Place, Found)>, first: (u16, u16), second: (u16, u16)) {
    exists a :: a in made && a.1.Key() == first && forall b :: b in made && b.1.Key() == second ==> a.0.Before(b.0)
  }

  /** No key twice; every assigned key; each with its last value; in the order of their first assignments. */
  ghost predicate Collects(d: seq<Found>, made: iset<(Place, Found)>) {
    && (forall m, n :: 0 <= m < n < |d| ==> d[m].Key() != d[n].Key())
    && (forall a :: a in made ==> Has(d, a.1.Key()))
    && (forall n :: 0 <= n < |d| ==> MadeLast(made, d[n]))
    && (forall m, n :: 0 <= m < n < |d| ==> MadeEarlier(made, d[m].Key(), d[n].Key()))
  }

  /** The assignments in order, each with its place. */
  ghost predicate Lists(ps: seq<Place>, hits: seq<Found>, made: iset<(Place, Found)>) {
    && |ps| == |hits|
    && (forall x :: 0 <= x < |ps| ==> (ps[x], hits[x]) in made)
    && (forall x, y :: 0 <= x < y < |ps| ==> ps[x].Before(ps[y]))
    && (forall a :: a in made ==> exists x :: 0 <= x < |ps| && ps[x] == a.0 && hits[x] == a.1)
  }

  lemma {:induction false} ListsConcat(
      ps: seq<Place>, hits: seq<Found>, made: iset<(Place, Found)>,
      qs: seq<Place>, more: seq<Found>, added: iset<(Place, Found)>)
    requires Lists(ps, hits, made) && Lists(qs, more, added)
    requires forall a, b :: a in made && b in added ==> a.0.Before(b.0)
    ensures Lists(ps + qs, hits + more, made + added)
  {
    var n := |ps|;
    forall x | 0 <= x < |ps + qs| ensures ((ps + qs)[x], (hits + more)[x]) in made + added {
      if x >= n {
        assert (qs[x - n], more[x - n]) in added;
      }
    }
    forall x, y | 0 <= x < y < |ps + qs| ensures (ps + qs)[x].Before((ps + qs)[y]) {
      if x < n <= y {
        assert (ps[x], hits[x]) in made && (qs[y - n], more[y - n]) in added;
      }
    }
    forall a | a in made + added ensures exists x :: 0 <= x < |ps + qs| && (ps + qs)[x] == a.0 && (hits + more)[x] == a.1 {
      if a in made {
        var x :| 0 <= x < n && ps[x] == a.0 && hits[x] == a.1;
        assert (ps + qs)[x] == a.0 && (hits + more)[x] == a.1;
      } else {
        var x :| 0 <= x < |qs| && qs[x] == a.0 && more[x] == a.1;
        assert (ps + qs)[n + x] == a.0 && (hits + more)[n + x] == a.1;
      }
    }
  }

  lemma {:induction false} FirstLeads(os: seq<SdOption>) returns (j: int)
    ensures FirstEndpoint(os).Some? ==> Leads(os, j) && os[j].endpoint == FirstEndpoint(os)
    ensures forall m :: Leads(os, m) ==> FirstEndpoint(os) == os[m].endpoint
    decreases |os|
  {
    j := 0;
    if os != [] && !IsEndpoint(os[0]) {
      var i := FirstLeads(os[1..]);
      j := i + 1;
      assert forall m :: Leads(os, m) ==> Leads(os[1..], m - 1) && os[1..][m - 1] == os[m];
    }
  }

  /** What one more entry of a message adds. */
  ghost function MadeAt(service: int, instance: int, e: Entry, at: Option<Endpoint>, p: Place): iset<(Place, Found)> {
    if Wanted(service, instance, e) && at.Some?
    then iset{(p, Found(e.serviceId, e.instanceId, at.value.address, at.value.port))} else iset{}
  }

  lemma {:induction false} MadeNext(service: int, instance: int, r: Outcome, k: int)
    requires r.Parsed? && r.entries != []
    ensures var n := |r.entries| - 1;
            (MadeBy(service, instance, r, k)
         == MadeBy(service, instance, r.(entries := r.entries[..n]), k)
            + MadeAt(service, instance, r.entries[n], FirstEndpoint(r.options), Place(k, n)))
  {
    var es, os := r.entries, r.options;
    var n := |es| - 1;
    var j := FirstLeads(os);
    hide Leads, FirstEndpoint;
    forall i, m, f ensures Assigns(service, instance, es, os, i, m, f)
                      <==> if i == n then Assigns(service, instance, es, os, n, m, f) else Assigns(service, instance, es[..n], os, i, m, f) {
    }
    if Wanted(service, instance, es[n]) && FirstEndpoint(os).Some? {
      var at := FirstEndpoint(os).value;
      assert Assigns(service, instance, es, os, n, j, Found(es[n].serviceId, es[n].instanceId, at.address, at.port));
    }
  }

  lemma {:induction false} MessageListed(service: int, instance: int, r: Outcome, k: int) returns (ps: seq<Place>)
    ensures Lists(ps, MessageHits(service, instance, r), MadeBy(service, instance, r, k))
    decreases if r.Parsed? then |r.entries| else 0
  {
    if !r.Parsed? || r.entries == [] {
      ps := [];
    } else {
      var n := |r.entries| - 1;
      var before := r.(entries := r.entries[..n]);
      var earlier := MessageListed(service, instance, before, k);
      MadeNext(service, instance, r, k);
      var at := FirstEndpoint(r.options);
      var here := if Wanted(service, instance, r.entries[n]) && at.Some? then [Place(k, n)] else [];
      var hit := if here != [] then [Found(r.entries[n].serviceId, r.entries[n].instanceId, at.value.address, at.value.port)] else [];
      forall a | a in MadeBy(service, instance, before, k) ensures a.0.Before(Place(k, n)) {
      }
      hide FirstEndpoint, MadeBy;
      ps := earlier + here;
      ListsConcat(earlier, MessageHits(service, instance, before), MadeBy(service, instance, before, k),
                  here, hit, MadeAt(service, instance, r.entries[n], at, Place(k, n)));
    }
  }

  lemma {:induction false} AllListed(service: int, instance: int, packets: seq<seq<byte>>) returns (ps: seq<Place>)
    ensures Lists(ps, AllHits(service, instance, packets), Made(service, instance, packets))
    decreases |packets|
  {
    hide MessageHits, ParseSd;
    if packets == [] {
      ps := [];
    } else {
      var n := |packets| - 1;
      var earlier := AllListed(service, instance, packets[..n]);
      var here := MessageListed(service, instance, ParseSd(packets[n]), n);
      ps := earlier + here;
      var last := MadeBy(service, instance, ParseSd(packets[n]), n);
      assert Made(service, instance, packets) == Made(service, instance, packets[..n]) + last;
      ListsConcat(earlier, AllHits(service, instance, packets[..n]), Made(service, instance, packets[..n]),
                  here, MessageHits(service, instance, ParseSd(packets[n])), last);
    }
  }

  lemma {:induction false} LastHitAt(hits: seq<Found>, key: (u16, u16)) returns (x: int)
    ensures LastHit(hits, key).Some? ==>
              && 0 <= x < |hits| && LastHit(hits, key) == Some(hits[x]) && hits[x].Key() == key
              && forall y :: x < y < |hits| ==> hits[y].Key() != key
    ensures LastHit(hits, key) == None ==> forall y :: 0 <= y < |hits| ==> hits[y].Key() != key
    decreases |hits|
  {
    x := |hits| - 1;
    if hits != [] && hits[x].Key() != key {
      x := LastHitAt(hits[..|hits| - 1], key);
    }
  }

  lemma {:induction false} FirstHitAt(hits: seq<Found>, key: (u16, u16))
    ensures FirstHit(hits, key) < |hits| ==> hits[FirstHit(hits, key)].Key() == key
    ensures forall y :: 0 <= y < FirstHit(hits, key) && y < |hits| ==> hits[y].Key() != key
    decreases |hits|
  {
    if hits != [] {
      FirstHitAt(hits[..|hits| - 1], key);
    }
  }

  lemma {:induction false} Earlier(d: seq<Found>, ps: seq<Place>, hits: seq<Found>, made: iset<(Place, Found)>, m: nat, n: nat)
    requires Lists(ps, hits, made) && Deduplicates(d, hits) && m < n < |d|
    ensures MadeEarlier(made, d[m].Key(), d[n].Key())
  {
    var first, second := d[m].Key(), d[n].Key();
    FirstHitAt(hits, first);
    FirstHitAt(hits, second);
    var x := FirstHit(hits, first);
    hide FirstHit, LastHit;
    HitBoth(hits, second);
    assert (ps[x], hits[x]) in made;
    forall b | b in made && b.1.Key() == second ensures ps[x].Before(b.0) {
      var y :| 0 <= y < |ps| && ps[y] == b.0 && hits[y] == b.1;
    }
  }

  lemma {:induction false} Latest(d: seq<Found>, ps: seq<Place>, hits: seq<Found>, made: iset<(Place, Found)>, n: nat)
    requires Lists(ps, hits, made) && Deduplicates(d, hits) && n < |d|
    ensures MadeLast(made, d[n])
  {
    var x := LastHitAt(hits, d[n].Key());
    hide FirstHit, LastHit;
    assert (ps[x], hits[x]) in made;
    forall a | a in made && ps[x].Before(a.0) ensures a.1.Key() != d[n].Key() {
      var y :| 0 <= y < |ps| && ps[y] == a.0 && hits[y] == a.1;
    }
  }

  /** discover's result for every search and every sequence of messages, told from what parse_sd reads alone. */
  lemma {:induction false} Collected(service: int, instance: int, packets: seq<seq<byte>>)
    ensures Collects(Dedup(AllHits(service, instance, packets)), Made(service, instance, packets))
  {
    hide ParseSd, AllHits, Dedup, Made, FirstHit, LastHit, MadeLast, MadeEarlier;
    var hits, made := AllHits(service, instance, packets), Made(service, instance, packets);
    var d := Dedup(hits);
    var ps := AllListed(service, instance, packets);
    DedupExact(hits);
    forall a | a in made ensures Has(d, a.1.Key()) {
      var x := LastHitAt(hits, a.1.Key());
    }
    forall n | 0 <= n < |d| ensures MadeLast(made, d[n]) {
      Latest(d, ps, hits, made, n);
    }
    forall m, n | 0 <= m < n < |d| ensures MadeEarlier(made, d[m].Key(), d[n].Key()) {
      Earlier(d, ps, hits, made, m, n);
    }
  }

  /** At one place one assignment is made. */
  ghost predicate OneEach(made: iset<(Place, Found)>) {
    forall a, b :: a in made && b in made && a.0 == b.0 ==> a.1 == b.1
  }

  lemma {:induction false} MadeOneEach(service: int, instance: int, packets: seq<seq<byte>>)
    ensures OneEach(Made(service, instance, packets))
  {
    hide ParseSd;
    forall os, i, j | Leads(os, i) && Leads(os, j) ensures i == j {
    }
  }

  lemma {:induction false} SameLast(made: iset<(Place, Found)>, f: Found, g: Found)
    requires OneEach(made) && MadeLast(made, f) && MadeLast(made, g) && f.Key() == g.Key()
    ensures f == g
  {
    var p :| (p, f) in made && forall a :: a in made && p.Before(a.0) ==> a.1.Key() != f.Key();
    var q :| (q, g) in made && forall a :: a in made && q.Before(a.0) ==> a.1.Key() != g.Key();
    assert p == q;
  }

  lemma {:induction false} NotBothEarlier(made: iset<(Place, Found)>, first: (u16, u16), second: (u16, u16))
    requires MadeEarlier(made, first, second)
    ensures !MadeEarlier(made, second, first)
  {
    var a :| a in made && a.1.Key() == first && forall b :: b in made && b.1.Key() == second ==> a.0.Before(b.0);
    forall b | b in made && b.1.Key() == second ensures !b.0.Before(a.0) {
    }
  }

  /** A key listed in one result at `i` stands in the other at `i` or behind, when they agree before `i`. */
  lemma {:induction false} Elsewhere(d: seq<Found>, e: seq<Found>, made: iset<(Place, Found)>, i: nat) returns (m: int)
    requires Collects(d, made) && Collects(e, made) && i < |d| && i <= |e| && d[..i] == e[..i]
    ensures i <= m < |e| && e[m].Key() == d[i].Key()
  {
    assert MadeLast(made, d[i]);
    var p :| (p, d[i]) in made;
    assert Has(e, (p, d[i]).1.Key());
    m :| 0 <= m < |e| && e[m].Key() == d[i].Key();
    forall k | 0 <= k < i ensures e[k].Key() != d[i].Key() {
      assert d[k] == d[..i][k] && e[k] == e[..i][k];
    }
  }

  lemma {:induction false} SameAt(d: seq<Found>, e: seq<Found>, made: iset<(Place, Found)>, i: nat)
    requires OneEach(made) && Collects(d, made) && Collects(e, made)
    requires i < |d| && i <= |e| && d[..i] == e[..i]
    ensures i < |e| && d[i] == e[i]
  {
    var m := Elsewhere(d, e, made, i);
    var n := Elsewhere(e, d, made, i);
    if m > i {
      assert MadeEarlier(made, e[i].Key(), e[m].Key());
      assert n > i && MadeEarlier(made, d[i].Key(), d[n].Key());
      NotBothEarlier(made, d[i].Key(), e[i].Key());
      assert false;
    }
    SameLast(made, d[i], e[i]);
  }

  lemma {:induction false} Agree(d: seq<Found>, e: seq<Found>, made: iset<(Place, Found)>, i: nat)
    requires OneEach(made) && Collects(d, made) && Collects(e, made) && i <= |d|
    ensures i <= |e| && d[..i] == e[..i]
    decreases i
  {
    if i > 0 {
      Agree(d, e, made, i - 1);
      SameAt(d, e, made, i - 1);
      assert d[..i] == d[..i - 1] + [d[i - 1]] && e[..i] == e[..i - 1] + [e[i - 1]];
    }
  }

  /** No other list collects the same assignments: the statement determines discover's result. */
  lemma {:induction false} CollectedOnce(service: int, instance: int, packets: seq<seq<byte>>, d: seq<Found>)
    ensures Collects(d, Made(service, instance, packets)) <==> d == Dedup(AllHits(service, instance, packets))
  {
    Collected(service, instance, packets);
    MadeOneEach(service, instance, packets);
    var e, made := Dedup(AllHits(service, instance, packets)), Made(service, instance, packets);
    hide Collects, Made, AllHits, Dedup;
    if Collects(d, made) {
      Agree(d, e, made, |d|);
      Agree(e, d, made, |e|);
      assert d == d[..|d|] && e == e[..|e|];
    }
  }
}
