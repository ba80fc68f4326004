/**
 The accumulation policy of a continuous check (crates/cspace-bullet-cast/src/contact_test_data.rs):
 what is stored, and when a pair or the whole traversal stops.
 */
module ContactTestData {
  import opened LinearMath
  import opened Wrappers

  datatype BodyType = RobotLink | RobotAttached | WorldObject

  /** `percentInterpolation` is `None` for the not-a-number of an empty polyhedron. */
  datatype Contact = Contact(
    bodyName1: string, bodyName2: string, bodyType1: BodyType, bodyType2: BodyType,
    normal: Vec3, pos: Vec3, depth: real, percentInterpolation: Option<real>)

  datatype CastRequest = CastRequest(distance: bool, contacts: bool, maxContacts: nat, maxContactsPerPair: nat)

  type Key = (string, string)

  // ---- pair keys ---------------------------------------------------------

  /** Lexicographic order on names. */
  predicate Before(a: string, b: string) {
    if b == [] then false
    else if a == [] then true
    else a[0] < b[0] || (a[0] == b[0] && Before(a[1..], b[1..]))
  }

  function ObjectPairKey(a: string, b: string): Key {
    if Before(a, b) then (a, b) else (b, a)
  }

  lemma {:induction false} BeforeTotal(a: string, b: string)
    ensures !(Before(a, b) && Before(b, a))
    ensures Before(a, b) || Before(b, a) || a == b
  {
    if a != [] && b != [] && a[0] == b[0] {
      BeforeTotal(a[1..], b[1..]);
      assert a == [a[0]] + a[1..] && b == [b[0]] + b[1..];
    }
  }

  /** `a` is a proper prefix of `b`, or the smaller where they first differ. */
  ghost predicate DiffersAt(a: string, b: string, k: nat) {
    && k <= |a| && k <= |b| && a[..k] == b[..k]
    && if k == |a| then k < |b| else k < |b| && a[k] < b[k]
  }

  /** The order is that of a dictionary. */
  lemma {:induction false} BeforeIsDictionary(a: string, b: string)
    ensures Before(a, b) <==> exists k: nat :: DiffersAt(a, b, k)
  {
    if a == [] {
      assert b != [] ==> DiffersAt(a, b, 0);
    } else if b != [] {
      if a[0] == b[0] {
        BeforeIsDictionary(a[1..], b[1..]);
        if Before(a, b) {
          var k: nat :| DiffersAt(a[1..], b[1..], k);
          assert a[..k + 1] == [a[0]] + a[1..][..k] && b[..k + 1] == [b[0]] + b[1..][..k];
          assert DiffersAt(a, b, k + 1);
        }
        if k: nat :| DiffersAt(a, b, k) {
          assert k > 0;
          assert a[1..][..k - 1] == a[..k][1..] && b[1..][..k - 1] == b[..k][1..];
          assert DiffersAt(a[1..], b[1..], k - 1);
        }
      } else {
        assert a[0] < b[0] ==> DiffersAt(a, b, 0);
        if k: nat :| DiffersAt(a, b, k) {
          assert k > 0 ==> a[..k][0] == b[..k][0];
        }
      }
    }
  }

  /** The key does not depend on which side came first, and two pairs share a key only if they are the same pair. */
  lemma KeyIdentifiesPair(a: string, b: string, c: string, d: string)
    ensures ObjectPairKey(a, b) == ObjectPairKey(c, d) <==> (a == c && b == d) || (a == d && b == c)
  {
    BeforeTotal(a, b);
    BeforeTotal(c, d);
  }

  /** The names come in dictionary order. */
  lemma KeyIsOrdered(a: string, b: string)
    ensures ObjectPairKey(a, b) == (a, b) || ObjectPairKey(a, b) == (b, a)
    ensures !exists k: nat :: DiffersAt(ObjectPairKey(a, b).1, ObjectPairKey(a, b).0, k)
  {
    BeforeTotal(a, b);
    BeforeIsDictionary(a, b);
    BeforeIsDictionary(b, a);
  }

  // ---- one contact -------------------------------------------------------

  /** `distance` is `None` while it still holds the largest float, which no depth reaches. */
  datatype State = State(
    collision: bool, distance: Option<real>, contactCount: nat,
    contacts: map<Key, seq<Contact>>, done: bool, pairDone: bool)

  const FRESH := State(false, None, 0, map[], false, false)

  function Nearer(d: Option<real>, depth: real): Option<real> {
    if d.None? || depth < d.value then Some(depth) else d
  }

  /** The state after `process_result`, and whether the contact was stored. */
  function Accept(s: State, req: CastRequest, c: Contact, key: Key): (State, bool) {
    var d := if req.distance then Nearer(s.distance, c.depth) else s.distance;
    var s := s.(distance := d);
    if key !in s.contacts then
      var s := s.(collision := s.collision || c.depth <= 0.0);
      if !req.contacts then
        (s.(done := s.done || !req.distance), false)
      else
        (s.(contacts := s.contacts[key := [c]],
            contactCount := s.contactCount + 1,
            done := s.done || (s.contactCount + 1 >= req.maxContacts && !req.distance),
            pairDone := s.pairDone || req.maxContactsPerPair == 1), true)
    else
      (s.(contacts := s.contacts[key := s.contacts[key] + [c]],
          contactCount := s.contactCount + 1,
          pairDone := s.pairDone || |s.contacts[key]| + 1 >= req.maxContactsPerPair,
          done := s.done || (s.contactCount + 1 >= req.maxContacts && !req.distance)), true)
  }

  class CastResult {
    var collision: bool
    var distance: Option<real>
    var contactCount: nat
    var contacts: map<Key, seq<Contact>>
    var done: bool
    var pairDone: bool

    function Value(): State
      reads this
    {
      State(collision, distance, contactCount, contacts, done, pairDone)
    }

    constructor ()
      ensures Value() == FRESH
    {
      collision, distance, contactCount, contacts, done, pairDone := false, None, 0, map[], false, false;
    }

    method ProcessResult(req: CastRequest, c: Contact, key: Key) returns (stored: bool)
      modifies this
      ensures (Value(), stored) == Accept(old(Value()), req, c, key)
      ensures stored ==> key in contacts && contacts[key] != [] && contacts[key][|contacts[key]| - 1] == c
    {
      if req.distance {
        if distance.None? || c.depth < distance.value {
          distance := Some(c.depth);
        }
      }
      if key !in contacts {
        if c.depth <= 0.0 { collision := true; }
        if !req.contacts {
          if !req.distance { done := true; }
          return false;
        }
        contacts := contacts[key := [c]];
        contactCount := contactCount + 1;
        if contactCount >= req.maxContacts && !req.distance { done := true; }
        if req.maxContactsPerPair == 1 { pairDone := true; }
        return true;
      } else {
        var dr := contacts[key] + [c];
        contacts := contacts[key := dr];
        contactCount := contactCount + 1;
        if |dr| >= req.maxContactsPerPair { pairDone := true; }
        if contactCount >= req.maxContacts && !req.distance { done := true; }
        return true;
      }
    }

    /** `last_contact_mut` written through. */
    method SetLastContact(key: Key, c: Contact)
      requires key in contacts && contacts[key] != []
      modifies this`contacts
      ensures contacts == old(contacts)[key := old(contacts)[key][..|old(contacts)[key]| - 1] + [c]]
    {
      var dr := contacts[key];
      contacts := contacts[key := dr[..|dr| - 1] + [c]];
    }
  }

  /** Overwriting the contact just stored by one of the same depth is storing that one. */
  lemma StoreThenFinish(s: State, req: CastRequest, c: Contact, finished: Contact, key: Key)
    requires finished.depth == c.depth && Accept(s, req, c, key).1
    ensures var (t, _) := Accept(s, req, c, key);
            && Accept(s, req, finished, key).1
            && key in t.contacts && t.contacts[key] != []
            && Accept(s, req, finished, key).0
               == t.(contacts := t.contacts[key := t.contacts[key][..|t.contacts[key]| - 1] + [finished]])
  {
    AcceptParts(s, req, c, key);
    AcceptParts(s, req, finished, key);
    SameCounting(s, req, c, finished, key);
    hide Accept;
    Overwritten(s.contacts, key, Held(s, key), c, finished);
  }

  function Held(s: State, key: Key): seq<Contact> { if key in s.contacts then s.contacts[key] else [] }

  /** What storing does to the contacts. */
  lemma AcceptParts(s: State, req: CastRequest, c: Contact, key: Key)
    requires Accept(s, req, c, key).1
    ensures Accept(s, req, c, key).0.contacts == s.contacts[key := Held(s, key) + [c]]
  {
    assert [] + [c] == [c];
  }

  /** Everything else depends on the depth alone. */
  lemma SameCounting(s: State, req: CastRequest, c: Contact, finished: Contact, key: Key)
    requires finished.depth == c.depth
    ensures Accept(s, req, finished, key).1 == Accept(s, req, c, key).1
    ensures Accept(s, req, finished, key).0.(contacts := map[]) == Accept(s, req, c, key).0.(contacts := map[])
  {}

  lemma Overwritten(m: map<Key, seq<Contact>>, key: Key, before: seq<Contact>, c: Contact, finished: Contact)
    ensures var t := m[key := before + [c]];
            t[key := t[key][..|t[key]| - 1] + [finished]] == m[key := before + [finished]]
  {
    assert (before + [c])[..|before|] == before;
  }

  // ---- a whole traversal -------------------------------------------------

  /** The contacts the narrow phase reports for one broadphase pair, in order. */
  datatype PairContacts = PairContacts(key: Key, reported: seq<Contact>)

  /** `add_contact_point`'s guard and then `process_result`. */
  function Report(s: State, req: CastRequest, limit: real, key: Key, c: Contact): State {
    if s.done || s.pairDone || c.depth > limit then s else Accept(s, req, c, key).0
  }

  function ReportAll(s: State, req: CastRequest, limit: real, key: Key, cs: seq<Contact>): State {
    if cs == [] then s
    else Report(ReportAll(s, req, limit, key, cs[..|cs| - 1]), req, limit, key, cs[|cs| - 1])
  }

  function RunPair(s: State, req: CastRequest, limit: real, p: PairContacts): State {
    var s := s.(pairDone := false);
    if s.done then s else ReportAll(s, req, limit, p.key, p.reported)
  }

  function RunPairs(s: State, req: CastRequest, limit: real, ps: seq<PairContacts>): State {
    if ps == [] then s
    else RunPair(RunPairs(s, req, limit, ps[..|ps| - 1]), req, limit, ps[|ps| - 1])
  }

  // ---- what the run amounts to -------------------------------------------

  type Item = (Key, Contact)

  /** The contacts within the limit. */
  function Eligible(cs: seq<Contact>, limit: real): seq<Contact> {
    if cs == [] then []
    else Eligible(cs[..|cs| - 1], limit)
         + (if cs[|cs| - 1].depth > limit then [] else [cs[|cs| - 1]])
  }

  /** How many contacts a pair may store: a zero budget still stores two, every other budget is met exactly. */
  function Cap(req: CastRequest): nat {
    if req.maxContactsPerPair == 0 then 2 else req.maxContactsPerPair
  }

  function Take<T>(s: seq<T>, n: nat): seq<T> { if |s| <= n then s else s[..n] }

  function Filed(key: Key, cs: seq<Contact>): seq<Item> {
    seq(|cs|, i requires 0 <= i < |cs| => (key, cs[i]))
  }

  /** The capped stream of one pair. */
  function PairStream(p: PairContacts, req: CastRequest, limit: real): seq<Item> {
    Filed(p.key, Take(Eligible(p.reported, limit), Cap(req)))
  }

  /** The capped stream of a whole run with no overall budget. */
  function Stream(ps: seq<PairContacts>, req: CastRequest, limit: real): seq<Item> {
    if ps == [] then []
    else Stream(ps[..|ps| - 1], req, limit) + PairStream(ps[|ps| - 1], req, limit)
  }

  /** The part of the stream the overall budget lets through: a distance request has no budget, and a zero budget still stores one. */
  function Within(s: seq<Item>, req: CastRequest): seq<Item> {
    if req.distance then s else Take(s, if req.maxContacts == 0 then 1 else req.maxContacts)
  }

  /** The map the items make, in order, each pair's contacts in one vector. */
  function Filing(s: seq<Item>): map<Key, seq<Contact>> {
    if s == [] then map[]
    else
      var (key, c) := s[|s| - 1];
      var m := Filing(s[..|s| - 1]);
      m[key := if key in m then m[key] + [c] else [c]]
  }

  ghost predicate DistinctPairs(ps: seq<PairContacts>) {
    forall i, j :: 0 <= i < j < |ps| ==> ps[i].key != ps[j].key
  }

  /** The least depth in the stream. */
  function Least(s: seq<Item>): Option<real> {
    if s == [] then None else Nearer(Least(s[..|s| - 1]), s[|s| - 1].1.depth)
  }

  /** The state is the one the stream makes when it is cut at the budget. */
  ghost predicate Stands(s: State, stream: seq<Item>, req: CastRequest) {
    && s.contacts == Filing(Within(stream, req))
    && s.contactCount == |Within(stream, req)|
    && (s.done <==> !req.distance && |stream| > 0 && |stream| >= req.maxContacts)
    && s.distance == if req.distance then Least(stream) else None
  }

  lemma {:induction false} FilingKeys(s: seq<Item>, key: Key)
    ensures key in Filing(s) <==> exists i :: 0 <= i < |s| && s[i].0 == key
  {
    if s != [] {
      var t := s[..|s| - 1];
      FilingKeys(t, key);
      if key in Filing(t) {
        var i :| 0 <= i < |t| && t[i].0 == key;
        assert s[i].0 == key;
      }
    }
  }

  lemma FilingAppend(s: seq<Item>, key: Key, c: Contact)
    ensures Filing(s + [(key, c)])
         == Filing(s)[key := if key in Filing(s) then Filing(s)[key] + [c] else [c]]
  {
    assert (s + [(key, c)])[..|s|] == s;
  }

  /** A pair's vector is its own items, so its length is how many of them there are. */
  lemma {:induction false} FilingOwn(s: seq<Item>, key: Key, cs: seq<Contact>)
    requires forall i :: 0 <= i < |s| ==> s[i].0 != key
    ensures (key in Filing(s + Filed(key, cs)) <==> cs != [])
    ensures cs != [] ==> Filing(s + Filed(key, cs))[key] == cs
    decreases |cs|
  {
    if cs == [] {
      assert s + Filed(key, cs) == s;
      FilingKeys(s, key);
    } else {
      var t := cs[..|cs| - 1];
      FilingOwn(s, key, t);
      assert s + Filed(key, cs) == (s + Filed(key, t)) + [(key, cs[|cs| - 1])];
      FilingAppend(s + Filed(key, t), key, cs[|cs| - 1]);
      assert t + [cs[|cs| - 1]] == cs;
    }
  }

  lemma EligibleAppend(cs: seq<Contact>, limit: real)
    requires cs != []
    ensures cs[|cs| - 1].depth > limit ==> Eligible(cs, limit) == Eligible(cs[..|cs| - 1], limit)
    ensures cs[|cs| - 1].depth <= limit ==> Eligible(cs, limit) == Eligible(cs[..|cs| - 1], limit) + [cs[|cs| - 1]]
  {}

  /** Once the budget is spent, more of the stream changes nothing. */
  lemma StandsStill(s: State, stream: seq<Item>, more: seq<Item>, req: CastRequest)
    requires Stands(s, stream, req) && s.done
    ensures Stands(s, stream + more, req)
  {
    assert Within(stream + more, req) == Within(stream, req);
  }

  /** One more contact of a pair whose cap is not reached, while the budget is not spent. */
  lemma AcceptStands(s: State, before: seq<Item>, e: seq<Contact>, req: CastRequest, key: Key, c: Contact)
    requires req.contacts && Stands(s, before + Filed(key, e), req) && !s.done && !s.pairDone && |e| < Cap(req)
    requires forall i :: 0 <= i < |before| ==> before[i].0 != key
    ensures var s' := Accept(s, req, c, key).0;
            && Stands(s', before + Filed(key, e + [c]), req)
            && (s'.pairDone <==> |e| + 1 >= Cap(req))
  {
    var stream := before + Filed(key, e);
    var stream' := before + Filed(key, e + [c]);
    assert stream' == stream + [(key, c)];
    assert stream'[..|stream|] == stream;
    assert Within(stream, req) == stream && Within(stream', req) == stream';
    FilingAppend(stream, key, c);
    FilingOwn(before, key, e);
  }

  /** Reporting all of one pair's contacts adds the pair's capped stream. */
  lemma {:induction false} ReportAllStands(
      s: State, before: seq<Item>, req: CastRequest, limit: real, key: Key, cs: seq<Contact>)
    requires req.contacts && Stands(s, before, req) && !s.done && !s.pairDone
    requires forall i :: 0 <= i < |before| ==> before[i].0 != key
    ensures var s' := ReportAll(s, req, limit, key, cs);
            var e := Eligible(cs, limit);
            && Stands(s', before + Filed(key, Take(e, Cap(req))), req)
            && (!s'.done ==> (s'.pairDone <==> |e| >= Cap(req)))
    decreases |cs|
  {
    hide Stands, Accept;
    if cs == [] {
      assert before + Filed(key, []) == before;
    } else {
      var (t, c) := (cs[..|cs| - 1], cs[|cs| - 1]);
      ReportAllStands(s, before, req, limit, key, t);
      EligibleAppend(cs, limit);
      var m := ReportAll(s, req, limit, key, t);
      var (e, e') := (Eligible(t, limit), Eligible(cs, limit));
      if m.done {
        TakeGrows(key, e, e', Cap(req));
        var more := Filed(key, Take(e', Cap(req)))[|Take(e, Cap(req))|..];
        assert before + Filed(key, Take(e', Cap(req))) == (before + Filed(key, Take(e, Cap(req)))) + more;
        StandsStill(m, before + Filed(key, Take(e, Cap(req))), more, req);
      } else if !m.pairDone && c.depth <= limit {
        assert Take(e, Cap(req)) == e && Take(e', Cap(req)) == e';
        AcceptStands(m, before, e, req, key, c);
      } else {
        assert Take(e', Cap(req)) == Take(e, Cap(req));
      }
    }
  }

  lemma TakeGrows(key: Key, e: seq<Contact>, e': seq<Contact>, n: nat)
    requires e <= e'
    ensures Filed(key, Take(e, n)) <= Filed(key, Take(e', n))
  {}

  lemma {:induction false} StreamKeys(ps: seq<PairContacts>, req: CastRequest, limit: real, i: nat)
    requires i < |Stream(ps, req, limit)|
    ensures exists k :: 0 <= k < |ps| && ps[k].key == Stream(ps, req, limit)[i].0
    decreases |ps|
  {
    var n := |ps| - 1;
    var rest := Stream(ps[..n], req, limit);
    if i < |rest| {
      StreamKeys(ps[..n], req, limit, i);
      var k :| 0 <= k < |ps[..n]| && ps[..n][k].key == rest[i].0;
      assert ps[k].key == Stream(ps, req, limit)[i].0;
    } else {
      assert ps[n].key == Stream(ps, req, limit)[i].0;
    }
  }

  /**
   Budgeted runs equal truncation, for every request that stores contacts: the
   stored map is the capped stream cut at the budget and filed by pair, the
   count is its length, the run stops exactly when the budget is reached, and a
   distance request's minimum is over the whole capped stream.
   */
  lemma {:induction false} RunIsTruncation(ps: seq<PairContacts>, req: CastRequest, limit: real)
    requires req.contacts && DistinctPairs(ps)
    ensures Stands(RunPairs(FRESH, req, limit, ps), Stream(ps, req, limit), req)
    decreases |ps|
  {
    if ps != [] {
      var n := |ps| - 1;
      var (rest, p) := (ps[..n], ps[n]);
      RunIsTruncation(rest, req, limit);
      var before := Stream(rest, req, limit);
      var s := RunPairs(FRESH, req, limit, rest).(pairDone := false);
      assert Stands(s, before, req);
      if s.done {
        StandsStill(s, before, PairStream(p, req, limit), req);
      } else {
        forall i | 0 <= i < |before| ensures before[i].0 != p.key {
          StreamKeys(rest, req, limit, i);
        }
        ReportAllStands(s, before, req, limit, p.key, p.reported);
      }
    }
  }

  /** With positive budgets: the stored contacts are the first `maxContacts` of what the run with a budget no stream exceeds stores. */
  lemma BudgetTruncatesUnbounded(ps: seq<PairContacts>, req: CastRequest, limit: real, unbounded: nat)
    requires req.contacts && !req.distance && req.maxContacts >= 1 && DistinctPairs(ps)
    requires unbounded > |Stream(ps, req, limit)|
    ensures RunPairs(FRESH, req, limit, ps).contacts == Filing(Take(Stream(ps, req, limit), req.maxContacts))
    ensures RunPairs(FRESH, req.(maxContacts := unbounded), limit, ps).contacts == Filing(Stream(ps, req, limit))
    ensures !RunPairs(FRESH, req.(maxContacts := unbounded), limit, ps).done
  {
    var free := req.(maxContacts := unbounded);
    RunIsTruncation(ps, req, limit);
    RunIsTruncation(ps, free, limit);
    StreamIgnoresBudget(ps, req, unbounded, limit);
  }

  // ---- when the budgets are met ------------------------------------------

  /** How many contacts of a run are within the limit, no pair counting for more than the per-pair cap. */
  function Offered(ps: seq<PairContacts>, req: CastRequest, limit: real): nat {
    if ps == [] then 0
    else
      var n := |Eligible(ps[|ps| - 1].reported, limit)|;
      Offered(ps[..|ps| - 1], req, limit) + (if n <= Cap(req) then n else Cap(req))
  }

  lemma {:induction false} StreamLength(ps: seq<PairContacts>, req: CastRequest, limit: real)
    ensures |Stream(ps, req, limit)| == Offered(ps, req, limit)
    decreases |ps|
  {
    if ps != [] { StreamLength(ps[..|ps| - 1], req, limit); }
  }

  lemma {:induction false} EligibleSome(cs: seq<Contact>, limit: real)
    ensures Eligible(cs, limit) != [] <==> AnyWithin(cs, limit)
    decreases |cs|
  {
    if cs != [] {
      var n := |cs| - 1;
      EligibleSome(cs[..n], limit);
      if i :| 0 <= i < n && cs[..n][i].depth <= limit { assert cs[i].depth <= limit; }
      if i :| 0 <= i < |cs| && cs[i].depth <= limit { assert i < n ==> cs[..n][i].depth <= limit; }
    }
  }

  lemma {:induction false} StreamSome(ps: seq<PairContacts>, req: CastRequest, limit: real)
    ensures Stream(ps, req, limit) != [] <==> AnyCollides(ps, limit)
    decreases |ps|
  {
    hide AnyWithin, AnyCollides, Eligible;
    if ps == [] {
      NoneCollide(limit);
    } else {
      var n := |ps| - 1;
      StreamSome(ps[..n], req, limit);
      EligibleSome(ps[n].reported, limit);
      CollidesSplit(ps, limit);
    }
  }

  lemma NoneCollide(limit: real)
    ensures !AnyCollides([], limit)
  {}

  lemma CollidesSplit(ps: seq<PairContacts>, limit: real)
    requires ps != []
    ensures AnyCollides(ps, limit) <==> AnyCollides(ps[..|ps| - 1], limit) || AnyWithin(ps[|ps| - 1].reported, limit)
  {
    hide AnyWithin;
    assert ps == ps[..|ps| - 1] + [ps[|ps| - 1]];
  }

  /** How many items carry a key. */
  function Count(s: seq<Item>, key: Key): nat {
    if s == [] then 0 else Count(s[..|s| - 1], key) + (if s[|s| - 1].0 == key then 1 else 0)
  }

  /** A stored vector is as long as its key occurs. */
  lemma {:induction false} FilingCount(s: seq<Item>, key: Key)
    ensures Count(s, key) == if key in Filing(s) then |Filing(s)[key]| else 0
    ensures key in Filing(s) ==> Filing(s)[key] != []
    decreases |s|
  {
    if s != [] { FilingCount(s[..|s| - 1], key); }
  }

  lemma {:induction false} CountConcat(s: seq<Item>, t: seq<Item>, key: Key)
    ensures Count(s + t, key) == Count(s, key) + Count(t, key)
    decreases |t|
  {
    if t == [] {
      assert s + t == s;
    } else {
      var n := |t| - 1;
      assert (s + t)[..|s + t| - 1] == s + t[..n];
      CountConcat(s, t[..n], key);
    }
  }

  lemma {:induction false} CountFiled(own: Key, cs: seq<Contact>, key: Key)
    ensures Count(Filed(own, cs), key) == if own == key then |cs| else 0
    decreases |cs|
  {
    if cs != [] {
      assert Filed(own, cs)[..|cs| - 1] == Filed(own, cs[..|cs| - 1]);
      CountFiled(own, cs[..|cs| - 1], key);
    }
  }

  /** One key belongs to one pair, so it occurs at most as often as a pair may store. */
  lemma {:induction false} StreamCount(ps: seq<PairContacts>, req: CastRequest, limit: real, key: Key)
    requires DistinctPairs(ps)
    ensures Count(Stream(ps, req, limit), key) <= Cap(req)
    ensures !Listed(ps, key) ==> Count(Stream(ps, req, limit), key) == 0
    decreases |ps|
  {
    hide Eligible, Cap;
    if ps != [] {
      var (n, p) := (|ps| - 1, ps[|ps| - 1]);
      var own := Take(Eligible(p.reported, limit), Cap(req));
      StreamCount(ps[..n], req, limit, key);
      CountConcat(Stream(ps[..n], req, limit), PairStream(p, req, limit), key);
      CountFiled(p.key, own, key);
      if k :| 0 <= k < |ps[..n]| && ps[..n][k].key == key { assert ps[k].key == key; }
    }
  }

  lemma CountWithin(s: seq<Item>, req: CastRequest, key: Key)
    ensures Count(Within(s, req), key) <= Count(s, key)
  {
    var w := Within(s, req);
    assert s == w + s[|w|..];
    CountConcat(w, s[|w|..], key);
  }

  /**
   The overall budget is met exactly when it is at least one or no pair reports
   anything; a distance request has none, and stores whatever is offered.
   */
  lemma OverallBudgetMetExactly(ps: seq<PairContacts>, req: CastRequest, limit: real)
    requires req.contacts && DistinctPairs(ps)
    ensures RunPairs(FRESH, req, limit, ps).contactCount <= req.maxContacts
       <==> (if req.distance then Offered(ps, req, limit) <= req.maxContacts
             else req.maxContacts >= 1 || !AnyCollides(ps, limit))
  {
    hide RunPairs, Stream, Offered;
    RunIsTruncation(ps, req, limit);
    StreamLength(ps, req, limit);
    StreamSome(ps, req, limit);
  }

  /** The per-pair budget is met by every stored vector exactly when it is at least one or no pair reports anything. */
  lemma PairBudgetMetExactly(ps: seq<PairContacts>, req: CastRequest, limit: real)
    requires req.contacts && DistinctPairs(ps)
    ensures var stored := RunPairs(FRESH, req, limit, ps).contacts;
            (forall key :: key in stored ==> |stored[key]| <= req.maxContactsPerPair)
            <==> (req.maxContactsPerPair >= 1 || !AnyCollides(ps, limit))
  {
    hide RunPairs, Stream, AnyCollides, Filing, Count;
    RunIsTruncation(ps, req, limit);
    var stream := Stream(ps, req, limit);
    var stored := RunPairs(FRESH, req, limit, ps).contacts;
    StreamSome(ps, req, limit);
    forall key | key in stored ensures 0 < |stored[key]| <= Cap(req) {
      FilingCount(Within(stream, req), key);
      CountWithin(stream, req, key);
      StreamCount(ps, req, limit, key);
    }
    if stream == [] {
      forall key ensures key !in stored { FilingKeys(Within(stream, req), key); }
    } else {
      FirstFiled(stream, req);
      var key := stream[0].0;
      assert key in stored && |stored[key]| > 0;
      assert AnyCollides(ps, limit);
      if req.maxContactsPerPair == 0 { assert |stored[key]| > req.maxContactsPerPair; }
    }
  }

  lemma FirstFiled(stream: seq<Item>, req: CastRequest)
    requires stream != []
    ensures stream[0].0 in Filing(Within(stream, req))
  {
    assert Within(stream, req)[0] == stream[0];
    FilingKeys(Within(stream, req), stream[0].0);
  }

  /** An overall budget of zero stores one contact. */
  lemma ZeroBudgetStoresOne(key: Key, c: Contact, limit: real)
    requires c.depth <= limit
    ensures RunPairs(FRESH, CastRequest(false, true, 0, 1), limit, [PairContacts(key, [c])]).contacts == map[key := [c]]
    ensures RunPairs(FRESH, CastRequest(false, true, 0, 1), limit, [PairContacts(key, [c])]).contactCount == 1
  {
    var (req, ps) := (CastRequest(false, true, 0, 1), [PairContacts(key, [c])]);
    OnePair(FRESH, req, limit, key, [c]);
    assert [c][..0] == [];
    assert ReportAll(FRESH, req, limit, key, [c]) == Report(FRESH, req, limit, key, c);
  }

  lemma OnePair(s: State, req: CastRequest, limit: real, key: Key, cs: seq<Contact>)
    requires !s.done
    ensures RunPairs(s, req, limit, [PairContacts(key, cs)]) == ReportAll(s.(pairDone := false), req, limit, key, cs)
  {
    var ps := [PairContacts(key, cs)];
    assert ps[..0] == [];
    assert RunPairs(s, req, limit, ps[..0]) == s;
  }

  /** A per-pair budget of zero stores two contacts. */
  lemma ZeroPerPairStoresTwo(key: Key, c: Contact, d: Contact, limit: real)
    requires c.depth <= limit && d.depth <= limit
    ensures var s := RunPairs(FRESH, CastRequest(false, true, 9, 0), limit, [PairContacts(key, [c, d, c])]);
            s.contacts == map[key := [c, d]] && s.contactCount == 2
  {
    var req := CastRequest(false, true, 9, 0);
    var cs := [c, d, c];
    OnePair(FRESH, req, limit, key, cs);
    assert cs[..2] == [c, d] && cs[..2][..1] == [c] && cs[..2][..1][..0] == [];
    var s1 := Report(FRESH, req, limit, key, c);
    assert ReportAll(FRESH, req, limit, key, cs[..2][..1]) == s1;
    var s2 := Report(s1, req, limit, key, d);
    assert ReportAll(FRESH, req, limit, key, cs[..2]) == s2;
    assert s1.contacts == map[key := [c]] && [c] + [d] == [c, d];
    assert map[key := [c]][key := [c, d]] == map[key := [c, d]];
    assert s2.pairDone;
    assert ReportAll(FRESH, req, limit, key, cs) == s2;
  }

  lemma {:induction false} StreamIgnoresBudget(ps: seq<PairContacts>, req: CastRequest, n: nat, limit: real)
    ensures Stream(ps, req.(maxContacts := n), limit) == Stream(ps, req, limit)
    decreases |ps|
  {
    if ps != [] { StreamIgnoresBudget(ps[..|ps| - 1], req, n, limit); }
  }

  // ---- the count is the sum of the vectors -------------------------------

  function Lengths(m: map<Key, seq<Contact>>, ps: seq<PairContacts>): nat {
    if ps == [] then 0
    else Lengths(m, ps[..|ps| - 1]) + (if ps[|ps| - 1].key in m then |m[ps[|ps| - 1].key]| else 0)
  }

  lemma {:induction false} LengthsEmpty(ps: seq<PairContacts>)
    ensures Lengths(map[], ps) == 0
    decreases |ps|
  {
    if ps != [] { LengthsEmpty(ps[..|ps| - 1]); }
  }

  lemma {:induction false} LengthsAppend(m: map<Key, seq<Contact>>, ps: seq<PairContacts>, key: Key, c: Contact)
    requires DistinctPairs(ps)
    ensures var m' := m[key := if key in m then m[key] + [c] else [c]];
            Lengths(m', ps) == Lengths(m, ps) + (if exists i :: 0 <= i < |ps| && ps[i].key == key then 1 else 0)
    decreases |ps|
  {
    if ps != [] {
      var n := |ps| - 1;
      LengthsAppend(m, ps[..n], key, c);
      if i :| 0 <= i < |ps[..n]| && ps[..n][i].key == key {
        assert ps[i].key == key;
      }
    }
  }

  ghost predicate Listed(ps: seq<PairContacts>, key: Key) {
    exists k :: 0 <= k < |ps| && ps[k].key == key
  }

  lemma {:induction false} FilingLengths(s: seq<Item>, ps: seq<PairContacts>)
    requires DistinctPairs(ps)
    requires forall i :: 0 <= i < |s| ==> Listed(ps, s[i].0)
    ensures Lengths(Filing(s), ps) == |s|
    decreases |s|
  {
    if s == [] {
      LengthsEmpty(ps);
    } else {
      var t := s[..|s| - 1];
      forall i | 0 <= i < |t| ensures Listed(ps, t[i].0) {
        assert t[i] == s[i];
      }
      FilingLengths(t, ps);
      LengthsAppend(Filing(s[..|s| - 1]), ps, s[|s| - 1].0, s[|s| - 1].1);
    }
  }

  lemma CountIsSum(ps: seq<PairContacts>, req: CastRequest, limit: real)
    requires req.contacts && DistinctPairs(ps)
    ensures var s := RunPairs(FRESH, req, limit, ps);
            s.contactCount == Lengths(s.contacts, ps)
  {
    RunIsTruncation(ps, req, limit);
    var w := Within(Stream(ps, req, limit), req);
    forall i | 0 <= i < |w| ensures Listed(ps, w[i].0) {
      StreamKeys(ps, req, limit, i);
    }
    FilingLengths(w, ps);
  }

  // ---- the verdict -------------------------------------------------------

  ghost predicate AnyWithin(cs: seq<Contact>, limit: real) {
    exists i :: 0 <= i < |cs| && cs[i].depth <= limit
  }

  ghost predicate AnyCollides(ps: seq<PairContacts>, limit: real) {
    exists p :: p in ps && AnyWithin(p.reported, limit)
  }

  /** Nothing stops and nothing is stored before a collision has been seen. */
  ghost predicate SeenFirst(s: State) {
    s.done || s.pairDone || s.contacts != map[] ==> s.collision
  }

  lemma {:induction false} ReportAllVerdict(s: State, req: CastRequest, limit: real, key: Key, cs: seq<Contact>)
    requires SeenFirst(s) && limit <= 0.0
    ensures SeenFirst(ReportAll(s, req, limit, key, cs))
    ensures ReportAll(s, req, limit, key, cs).collision <==> s.collision || AnyWithin(cs, limit)
    decreases |cs|
  {
    if cs != [] {
      var n := |cs| - 1;
      ReportAllVerdict(s, req, limit, key, cs[..n]);
      if i :| 0 <= i < |cs[..n]| && cs[..n][i].depth <= limit {
        assert cs[i].depth <= limit;
      }
    }
  }

  /** At a contact distance of zero the verdict is whether any pair reported any contact, for every request. */
  lemma {:induction false} VerdictIsExistence(ps: seq<PairContacts>, req: CastRequest, limit: real)
    requires limit <= 0.0
    ensures SeenFirst(RunPairs(FRESH, req, limit, ps))
    ensures RunPairs(FRESH, req, limit, ps).collision <==> AnyCollides(ps, limit)
    decreases |ps|
  {
    if ps != [] {
      var n := |ps| - 1;
      var p := ps[n];
      VerdictIsExistence(ps[..n], req, limit);
      var s := RunPairs(FRESH, req, limit, ps[..n]).(pairDone := false);
      ReportAllVerdict(s, req, limit, p.key, p.reported);
      assert ps == ps[..n] + [p];
      if AnyCollides(ps[..n], limit) {
        var q :| q in ps[..n] && AnyWithin(q.reported, limit);
        assert q in ps;
      }
    }
  }

  /** At any contact distance, one reported contact makes a collision exactly when its depth is not positive. */
  lemma VerdictOfOne(key: Key, c: Contact, req: CastRequest, limit: real)
    requires c.depth <= limit
    ensures RunPairs(FRESH, req, limit, [PairContacts(key, [c])]).collision <==> c.depth <= 0.0
  {
    OnePair(FRESH, req, limit, key, [c]);
    assert [c][..0] == [];
    assert ReportAll(FRESH, req, limit, key, [c]) == Report(FRESH, req, limit, key, c);
  }

  /** The verdict is the same for every request and every order of the pairs. */
  lemma VerdictIsStable(
      ps: seq<PairContacts>, req: CastRequest, ps': seq<PairContacts>, req': CastRequest, limit: real)
    requires limit <= 0.0 && multiset(ps) == multiset(ps')
    ensures RunPairs(FRESH, req, limit, ps).collision == RunPairs(FRESH, req', limit, ps').collision
  {
    VerdictIsExistence(ps, req, limit);
    VerdictIsExistence(ps', req', limit);
    if p :| p in ps && AnyWithin(p.reported, limit) {
      assert p in multiset(ps');
    }
    if p :| p in ps' && AnyWithin(p.reported, limit) {
      assert p in multiset(ps);
    }
  }

  // ---- the distance ------------------------------------------------------

  /** `d` is no greater than any depth within the limit, and one of them unless there is none. */
  ghost predicate LeastWithin(d: Option<real>, ps: seq<PairContacts>, limit: real) {
    && (d.None? <==> !AnyCollides(ps, limit))
    && (forall p, i :: p in ps && 0 <= i < |p.reported| && p.reported[i].depth <= limit ==> d.Some? && d.value <= p.reported[i].depth)
    && (d.Some? ==> exists p, i :: p in ps && 0 <= i < |p.reported| && p.reported[i].depth <= limit && p.reported[i].depth == d.value)
  }

  /** What reporting the contacts of one pair does when none are stored. */
  lemma {:induction false} ReportAllUnstored(s: State, req: CastRequest, limit: real, key: Key, cs: seq<Contact>)
    requires !req.contacts && s.contacts == map[] && !s.pairDone && !s.done
    ensures var t := ReportAll(s, req, limit, key, cs);
            && t.contacts == map[] && t.contactCount == s.contactCount && !t.pairDone
            && (t.done <==> !req.distance && AnyWithin(cs, limit))
            && (!req.distance ==> t.distance == s.distance)
    ensures var t := ReportAll(s, req, limit, key, cs);
            req.distance ==>
              && (t.distance.None? <==> s.distance.None? && !AnyWithin(cs, limit))
              && (s.distance.Some? ==> t.distance.Some? && t.distance.value <= s.distance.value)
              && (forall i :: 0 <= i < |cs| && cs[i].depth <= limit ==> t.distance.Some? && t.distance.value <= cs[i].depth)
              && (t.distance.Some? && t.distance != s.distance ==>
                    exists i :: 0 <= i < |cs| && cs[i].depth <= limit && cs[i].depth == t.distance.value)
    decreases |cs|
  {
    if cs != [] {
      var n := |cs| - 1;
      ReportAllUnstored(s, req, limit, key, cs[..n]);
      assert forall i :: 0 <= i < n ==> cs[..n][i] == cs[i];
      var (u, t) := (ReportAll(s, req, limit, key, cs[..n]), ReportAll(s, req, limit, key, cs));
      if i :| 0 <= i < n && cs[..n][i].depth <= limit { assert cs[i].depth <= limit; }
      if req.distance && u.distance.Some? && u.distance != s.distance {
        var i :| 0 <= i < n && cs[..n][i].depth <= limit && cs[..n][i].depth == u.distance.value;
        assert cs[i].depth == u.distance.value;
      }
    }
  }

  /**
   A request that wants no contacts stores none. Without a distance it stops at
   the first contact within the limit; with one it sees them all, and ends with
   the least of their depths.
   */
  lemma {:induction false} UnstoredRun(ps: seq<PairContacts>, req: CastRequest, limit: real)
    requires !req.contacts
    ensures var s := RunPairs(FRESH, req, limit, ps);
            && s.contacts == map[] && s.contactCount == 0
            && (s.done <==> !req.distance && AnyCollides(ps, limit))
            && if req.distance then LeastWithin(s.distance, ps, limit) else s.distance == None
    decreases |ps|
  {
    hide ReportAll, AnyWithin;
    if ps != [] {
      var n := |ps| - 1;
      var p := ps[n];
      UnstoredRun(ps[..n], req, limit);
      var u := RunPairs(FRESH, req, limit, ps[..n]);
      CollidesSplit(ps, limit);
      if !u.done {
        ReportAllUnstored(u.(pairDone := false), req, limit, p.key, p.reported);
        if req.distance { LeastGrows(ps, limit, u.distance, RunPairs(FRESH, req, limit, ps).distance); }
      }
    }
  }

  lemma LeastGrows(ps: seq<PairContacts>, limit: real, d: Option<real>, e: Option<real>)
    requires ps != [] && LeastWithin(d, ps[..|ps| - 1], limit)
    requires var cs := ps[|ps| - 1].reported;
             && (e.None? <==> d.None? && !AnyWithin(cs, limit))
             && (d.Some? ==> e.Some? && e.value <= d.value)
             && (forall i :: 0 <= i < |cs| && cs[i].depth <= limit ==> e.Some? && e.value <= cs[i].depth)
             && (e.Some? && e != d ==> exists i :: 0 <= i < |cs| && cs[i].depth <= limit && cs[i].depth == e.value)
    ensures LeastWithin(e, ps, limit)
  {
    var (before, last) := (ps[..|ps| - 1], ps[|ps| - 1]);
    assert ps == before + [last];
    CollidesSplit(ps, limit);
    hide AnyWithin, AnyCollides;
    forall p, i | p in ps && 0 <= i < |p.reported| && p.reported[i].depth <= limit
      ensures e.Some? && e.value <= p.reported[i].depth
    {
      if p in before { assert d.Some? && d.value <= p.reported[i].depth; }
    }
    if e.Some? {
      if e == d {
        var p, i :| p in before && 0 <= i < |p.reported| && p.reported[i].depth <= limit && p.reported[i].depth == d.value;
        assert p in ps;
      } else {
        var i :| 0 <= i < |last.reported| && last.reported[i].depth <= limit && last.reported[i].depth == e.value;
        assert last in ps;
      }
    }
  }

  lemma {:induction false} LeastIsLeast(s: seq<Item>)
    ensures Least(s).None? <==> s == []
    ensures forall i :: 0 <= i < |s| ==> Least(s).Some? && Least(s).value <= s[i].1.depth
    ensures Least(s).Some? ==> exists i :: 0 <= i < |s| && s[i].1.depth == Least(s).value
    decreases |s|
  {
    if s != [] {
      var t := s[..|s| - 1];
      LeastIsLeast(t);
      assert forall i :: 0 <= i < |t| ==> t[i] == s[i];
      if Least(t).Some? && Least(s) == Least(t) {
        var i :| 0 <= i < |t| && t[i].1.depth == Least(t).value;
        assert s[i].1.depth == Least(s).value;
      } else {
        assert s[|s| - 1].1.depth == Least(s).value;
      }
    }
  }

  /** A contact the run sees: within the limit and within its pair's cap. */
  ghost predicate Seen(ps: seq<PairContacts>, req: CastRequest, limit: real, depth: real) {
    exists k :: 0 <= k < |Stream(ps, req, limit)| && Stream(ps, req, limit)[k].1.depth <= depth
  }

  lemma {:induction false} EligibleHas(cs: seq<Contact>, limit: real, c: Contact)
    ensures c in Eligible(cs, limit) <==> c in cs && c.depth <= limit
    decreases |cs|
  {
    if cs != [] {
      EligibleHas(cs[..|cs| - 1], limit, c);
      assert cs == cs[..|cs| - 1] + [cs[|cs| - 1]];
    }
  }

  /** Everything in the stream was reported within the limit. */
  lemma {:induction false} StreamReported(ps: seq<PairContacts>, req: CastRequest, limit: real, k: nat) returns (p: PairContacts, i: nat)
    requires k < |Stream(ps, req, limit)|
    ensures p in ps && i < |p.reported| && p.reported[i] == Stream(ps, req, limit)[k].1 && p.reported[i].depth <= limit
    decreases |ps|
  {
    var n := |ps| - 1;
    var before := Stream(ps[..n], req, limit);
    if k < |before| {
      p, i := StreamReported(ps[..n], req, limit, k);
      assert p in ps;
    } else {
      p := ps[n];
      var c := Stream(ps, req, limit)[k].1;
      assert c == Take(Eligible(p.reported, limit), Cap(req))[k - |before|];
      assert c in Eligible(p.reported, limit);
      EligibleHas(p.reported, limit, c);
      i :| 0 <= i < |p.reported| && p.reported[i] == c;
    }
  }

  /**
   A distance request that also wants contacts sees no more of a pair than it may
   store; so its distance is the least of the scene exactly when no contact
   beyond a cap is nearer than all within the caps.
   */
  lemma StoredDistanceExactly(ps: seq<PairContacts>, req: CastRequest, limit: real)
    requires req.contacts && req.distance && DistinctPairs(ps)
    ensures LeastWithin(RunPairs(FRESH, req, limit, ps).distance, ps, limit)
       <==> forall p, i :: p in ps && 0 <= i < |p.reported| && p.reported[i].depth <= limit ==>
              Seen(ps, req, limit, p.reported[i].depth)
  {
    hide AnyWithin, AnyCollides, Stream, Eligible;
    var (stream, d) := (Stream(ps, req, limit), RunPairs(FRESH, req, limit, ps).distance);
    RunIsTruncation(ps, req, limit);
    LeastIsLeast(stream);
    StreamSome(ps, req, limit);
    assert d == Least(stream);
    if LeastWithin(d, ps, limit) {
      forall p, i | p in ps && 0 <= i < |p.reported| && p.reported[i].depth <= limit
        ensures Seen(ps, req, limit, p.reported[i].depth)
      {
        var k :| 0 <= k < |stream| && stream[k].1.depth == d.value;
        assert stream[k].1.depth <= p.reported[i].depth;
      }
    }
    if forall p, i :: p in ps && 0 <= i < |p.reported| && p.reported[i].depth <= limit ==> Seen(ps, req, limit, p.reported[i].depth) {
      forall p, i | p in ps && 0 <= i < |p.reported| && p.reported[i].depth <= limit
        ensures d.Some? && d.value <= p.reported[i].depth
      {
        assert Seen(ps, req, limit, p.reported[i].depth);
        var k :| 0 <= k < |stream| && stream[k].1.depth <= p.reported[i].depth;
        assert d.value <= stream[k].1.depth;
      }
      if d.Some? {
        var k :| 0 <= k < |stream| && stream[k].1.depth == d.value;
        var p, i := StreamReported(ps, req, limit, k);
        assert p.reported[i].depth == d.value;
      }
    }
  }

  /** One contact per pair: the second and deeper one of a pair goes unseen. */
  lemma CapHidesNearer(key: Key, c: Contact, d: Contact, limit: real)
    requires d.depth < c.depth <= limit
    ensures RunPairs(FRESH, CastRequest(true, true, 10, 1), limit, [PairContacts(key, [c, d])]).distance == Some(c.depth)
  {
    var (req, cs) := (CastRequest(true, true, 10, 1), [c, d]);
    OnePair(FRESH, req, limit, key, cs);
    assert cs[..1] == [c] && cs[..1][..0] == [];
    var s1 := Report(FRESH, req, limit, key, c);
    assert ReportAll(FRESH, req, limit, key, cs[..1]) == s1;
    assert s1.pairDone;
    assert ReportAll(FRESH, req, limit, key, cs) == s1;
  }
}
