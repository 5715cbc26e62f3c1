/** Getting or creating the cluster certificate authority: any number of nodes
    race through reads and conditional writes of a shared store, each store
    access a step of its own, and any of them may crash or fail at any point.
 */
module ClusterCA {
  import opened Types
  import opened ObjectStore

  const CERT_PATH := "ca/cert.pem"
  const KEY_PATH := "ca/key.pem"

  /** A certificate and the private key generated with it. */
  datatype Pair = Pair(cert: Bytes, key: Bytes)

  /** Where a node is. `Failed` also stands for any other store error. */
  datatype PC =
    | GetCert
    | GetKey(cert: Bytes)
    | Generate
    | PutCert(ca: Pair)
    | PutKey(ca: Pair)
    | Returned(ca: Pair)
    | Failed

  datatype System = System(store: Store, pcs: seq<PC>, generated: set<Pair>)

  /** A node takes its next step, with the pair it would generate; a node
      crashes; or someone uses the store for other things. */
  datatype Event = Run(i: nat, made: Pair) | Crash(i: nat) | Other(op: Op)

  const IF_ABSENT := PutOptions(true, "")

  function RunNode(s: System, i: nat, made: Pair): System
    requires i < |s.pcs|
  {
    var objects := s.store.objects;
    match s.pcs[i]
    case GetCert =>
      s.(pcs := s.pcs[i := if CERT_PATH in objects then GetKey(objects[CERT_PATH].data) else Generate])
    case GetKey(cert) =>
      s.(pcs := s.pcs[i := if KEY_PATH in objects then Returned(Pair(cert, objects[KEY_PATH].data)) else Generate])
    case Generate =>
      s.(pcs := s.pcs[i := PutCert(made)], generated := s.generated + {made})
    case PutCert(ca) =>
      if PutVerdict(s.store, CERT_PATH, IF_ABSENT).Written?
      then s.(store := PutInto(s.store, CERT_PATH, ca.cert, IF_ABSENT), pcs := s.pcs[i := PutKey(ca)])
      else s.(pcs := s.pcs[i := GetCert])
    case PutKey(ca) =>
      if PutVerdict(s.store, KEY_PATH, IF_ABSENT).Written?
      then s.(store := PutInto(s.store, KEY_PATH, ca.key, IF_ABSENT), pcs := s.pcs[i := Returned(ca)])
      else s.(pcs := s.pcs[i := GetCert])
    case Returned(_) => s
    case Failed => s
  }

  function Step(s: System, ev: Event): System {
    match ev
    case Run(i, made) => if i < |s.pcs| then RunNode(s, i, made) else s
    case Crash(i) => if i < |s.pcs| && !s.pcs[i].Returned? then s.(pcs := s.pcs[i := Failed]) else s
    case Other(op) => if op.key == CERT_PATH || op.key == KEY_PATH then s else s.(store := Apply(s.store, op))
  }

  function Exec(s: System, evs: seq<Event>): System {
    if evs == [] then s else Step(Exec(s, evs[..|evs| - 1]), evs[|evs| - 1])
  }

  /** No authority in the store, and every node about to ask for one. */
  ghost predicate Initial(s: System) {
    && CERT_PATH !in s.store.objects && KEY_PATH !in s.store.objects && s.generated == {}
    && forall pc <- s.pcs :: pc == GetCert
  }

  // ----- Agreement -----

  ghost predicate HasCert(s: System, cert: Bytes) {
    CERT_PATH in s.store.objects && s.store.objects[CERT_PATH].data == cert
  }

  ghost predicate HasPair(s: System, ca: Pair) {
    HasCert(s, ca.cert) && KEY_PATH in s.store.objects && s.store.objects[KEY_PATH].data == ca.key
  }

  /** What a node's position says about the store. */
  ghost predicate NodeOK(s: System, pc: PC) {
    match pc
    case GetKey(cert) => HasCert(s, cert)
    case PutCert(ca) => ca in s.generated
    case PutKey(ca) => ca in s.generated && HasCert(s, ca.cert) && KEY_PATH !in s.store.objects
    case Returned(ca) => HasPair(s, ca)
    case _ => true
  }

  ghost predicate Inv(s: System) {
    && (forall pc <- s.pcs :: NodeOK(s, pc))
    && (forall i, j | 0 <= i < j < |s.pcs| :: !(s.pcs[i].PutKey? && s.pcs[j].PutKey?))
    && (KEY_PATH in s.store.objects ==> exists ca <- s.generated :: HasPair(s, ca))
    && (CERT_PATH !in s.store.objects ==> KEY_PATH !in s.store.objects && forall pc <- s.pcs :: !pc.PutKey?)
  }

  /** Writing the certificate when there is none leaves every other node's
      knowledge intact, and likewise for the key. */
  lemma PutCertKeeps(s: System, i: nat, made: Pair)
    requires Inv(s) && i < |s.pcs| && s.pcs[i].PutCert?
    ensures Inv(RunNode(s, i, made))
  {
    var s' := RunNode(s, i, made);
    assert s.pcs[i] in s.pcs;
    forall pc <- s'.pcs
      ensures NodeOK(s', pc)
    {
      if pc in s.pcs { assert NodeOK(s, pc); }
    }
  }

  lemma PutKeyKeeps(s: System, i: nat, made: Pair)
    requires Inv(s) && i < |s.pcs| && s.pcs[i].PutKey?
    ensures Inv(RunNode(s, i, made)) && RunNode(s, i, made).pcs[i] == Returned(s.pcs[i].ca)
  {
    var s', ca := RunNode(s, i, made), s.pcs[i].ca;
    assert s.pcs[i] in s.pcs;
    assert HasPair(s', ca);
    forall j | 0 <= j < |s'.pcs|
      ensures NodeOK(s', s'.pcs[j])
    {
      if j != i { assert s.pcs[j] in s.pcs && !s.pcs[j].PutKey?; }
    }
  }

  lemma ReadKeeps(s: System, i: nat, made: Pair)
    requires Inv(s) && i < |s.pcs| && !s.pcs[i].PutCert? && !s.pcs[i].PutKey?
    ensures Inv(RunNode(s, i, made))
  {
    var s' := RunNode(s, i, made);
    assert s.pcs[i] in s.pcs;
    forall pc <- s'.pcs
      ensures NodeOK(s', pc)
    {
      if pc in s.pcs { assert NodeOK(s, pc); }
    }
  }

  lemma OtherKeeps(s: System, op: Op)
    requires Inv(s)
    ensures Inv(Step(s, Other(op)))
  {
    var s' := Step(s, Other(op));
    assert forall pc <- s.pcs :: NodeOK(s, pc) ==> NodeOK(s', pc);
    assert forall ca :: HasPair(s, ca) ==> HasPair(s', ca);
  }

  lemma StepKeeps(s: System, ev: Event)
    requires Inv(s)
    ensures Inv(Step(s, ev))
  {
    match ev
    case Run(i, made) =>
      if i < |s.pcs| {
        if s.pcs[i].PutCert? { PutCertKeeps(s, i, made); }
        else if s.pcs[i].PutKey? { PutKeyKeeps(s, i, made); }
        else { ReadKeeps(s, i, made); }
      }
    case Crash(i) =>
      var s' := Step(s, ev);
      assert forall pc <- s'.pcs :: pc in s.pcs || pc == Failed;
      assert forall pc <- s.pcs :: NodeOK(s, pc) ==> NodeOK(s', pc);
    case Other(op) => OtherKeeps(s, op);
  }

  lemma {:induction false} Always(s: System, evs: seq<Event>)
    requires Initial(s)
    ensures Inv(Exec(s, evs))
  {
    if evs == [] {
      assert forall i | 0 <= i < |s.pcs| :: s.pcs[i] in s.pcs;
    } else {
      Always(s, evs[..|evs| - 1]);
      StepKeeps(Exec(s, evs[..|evs| - 1]), evs[|evs| - 1]);
    }
  }

  /** Every node that returns has the certificate and the key of one and the
      same generation, and all nodes that return have the same ones. */
  lemma Agreement(s: System, evs: seq<Event>, i: nat, j: nat)
    requires Initial(s) && i < |Exec(s, evs).pcs| && j < |Exec(s, evs).pcs|
    requires Exec(s, evs).pcs[i].Returned? && Exec(s, evs).pcs[j].Returned?
    ensures var s' := Exec(s, evs);
            s'.pcs[i].ca == s'.pcs[j].ca && s'.pcs[i].ca in s'.generated && HasPair(s', s'.pcs[i].ca)
  {
    Always(s, evs);
    var s' := Exec(s, evs);
    assert s'.pcs[i] in s'.pcs && s'.pcs[j] in s'.pcs;
  }

  /** The key write of the node that won the certificate never fails, so the
      branch for its failure is never taken. */
  lemma KeyPutNeverFails(s: System, evs: seq<Event>, i: nat)
    requires Initial(s) && i < |Exec(s, evs).pcs| && Exec(s, evs).pcs[i].PutKey?
    ensures PutVerdict(Exec(s, evs).store, KEY_PATH, IF_ABSENT).Written?
  {
    Always(s, evs);
    assert Exec(s, evs).pcs[i] in Exec(s, evs).pcs;
  }

  // ----- Progress -----

  /** The certificate is there, the key is not, and nobody will write it. */
  ghost predicate Orphaned(s: System) {
    && CERT_PATH in s.store.objects && KEY_PATH !in s.store.objects
    && forall pc <- s.pcs :: !pc.PutKey? && !pc.Returned?
  }

  lemma {:induction false} OrphanedForever(s: System, evs: seq<Event>)
    requires Orphaned(s)
    ensures Orphaned(Exec(s, evs))
  {
    if evs != [] {
      var front, ev := evs[..|evs| - 1], evs[|evs| - 1];
      OrphanedForever(s, front);
      var s1 := Exec(s, front);
      var s2 := Step(s1, ev);
      forall pc <- s2.pcs
        ensures !pc.PutKey? && !pc.Returned?
      {
        if pc !in s1.pcs { assert ev.i < |s1.pcs| && s1.pcs[ev.i] in s1.pcs; }
      }
    }
  }

  ghost predicate SomeReturned(s: System) {
    exists i :: 0 <= i < |s.pcs| && s.pcs[i].Returned?
  }

  /** Some continuation lets a node return. */
  ghost predicate CanReturn(s: System) {
    exists more :: SomeReturned(Exec(s, more))
  }

  /** The node that wrote the certificate is about to write the key. */
  ghost predicate WinnerAlive(s: System) {
    exists i :: 0 <= i < |s.pcs| && s.pcs[i].PutKey?
  }

  lemma WinnerReturns(s: System, i: nat)
    requires Inv(s) && i < |s.pcs| && s.pcs[i].PutKey?
    ensures CanReturn(s)
  {
    var more := [Run(i, s.pcs[i].ca)];
    assert more[..0] == [];
    assert Exec(s, more) == RunNode(s, i, s.pcs[i].ca);
    PutKeyKeeps(s, i, s.pcs[i].ca);
    assert Exec(s, more).pcs[i].Returned?;
  }

  lemma OrphanedNeverReturns(s: System)
    requires Orphaned(s)
    ensures !CanReturn(s)
  {
    forall more ensures !SomeReturned(Exec(s, more)) {
      OrphanedForever(s, more);
      assert forall i | 0 <= i < |Exec(s, more).pcs| :: Exec(s, more).pcs[i] in Exec(s, more).pcs;
    }
  }

  /** While the certificate is stored without its key, some run still lets a
      node return if and only if the node that wrote the certificate is still
      there to write the key; if it crashed in between, every later call retries
      for ever. */
  lemma ReturnsIffWinnerAlive(s: System, evs: seq<Event>)
    requires Initial(s)
    requires CERT_PATH in Exec(s, evs).store.objects && KEY_PATH !in Exec(s, evs).store.objects
    ensures CanReturn(Exec(s, evs)) <==> WinnerAlive(Exec(s, evs))
  {
    Always(s, evs);
    var m := Exec(s, evs);
    if i :| 0 <= i < |m.pcs| && m.pcs[i].PutKey? {
      WinnerReturns(m, i);
    } else {
      assert forall pc <- m.pcs :: !pc.PutKey? && !pc.Returned? by {
        assert forall pc <- m.pcs :: NodeOK(m, pc);
      }
      OrphanedNeverReturns(m);
    }
  }

  // ----- Everybody returns, in a bounded number of its own steps -----

  /** The steps node `i` takes itself. */
  function OwnSteps(evs: seq<Event>, i: nat): nat {
    if evs == [] then 0
    else OwnSteps(evs[..|evs| - 1], i) + if evs[|evs| - 1].Run? && evs[|evs| - 1].i == i then 1 else 0
  }

  ghost predicate Survives(evs: seq<Event>, i: nat) {
    Crash(i) !in evs
  }

  /** How far a node is from returning once certificate and key are stored: a
      loser of the race still has to find out and to read both. */
  function StepsLeft(pc: PC): nat {
    match pc
    case GetKey(_) => 1
    case GetCert => 2
    case PutCert(_) => 3
    case Generate => 4
    case _ => 0
  }

  /** Nothing overwrites what is stored. */
  lemma StoredStays(s: System, ev: Event, ca: Pair)
    requires HasPair(s, ca)
    ensures HasPair(Step(s, ev), ca)
  {
  }

  lemma ReaderStep(s: System, ev: Event, i: nat, ca: Pair)
    requires Inv(s) && HasPair(s, ca) && i < |s.pcs| && s.pcs[i] != Failed && ev != Crash(i)
    ensures var s' := Step(s, ev);
            && |s'.pcs| == |s.pcs| && s'.pcs[i] != Failed
            && StepsLeft(s'.pcs[i]) == if ev.Run? && ev.i == i && StepsLeft(s.pcs[i]) > 0 then StepsLeft(s.pcs[i]) - 1 else StepsLeft(s.pcs[i])
  {
    assert NodeOK(s, s.pcs[i]);
  }

  lemma {:induction false} ReaderSteps(s: System, evs: seq<Event>, i: nat, ca: Pair)
    requires Inv(s) && HasPair(s, ca) && i < |s.pcs| && s.pcs[i] != Failed && Survives(evs, i)
    ensures var s' := Exec(s, evs);
            && Inv(s') && HasPair(s', ca) && |s'.pcs| == |s.pcs| && s'.pcs[i] != Failed
            && StepsLeft(s'.pcs[i]) == if OwnSteps(evs, i) < StepsLeft(s.pcs[i]) then StepsLeft(s.pcs[i]) - OwnSteps(evs, i) else 0
  {
    if evs != [] {
      var front, ev := evs[..|evs| - 1], evs[|evs| - 1];
      ReaderSteps(s, front, i, ca);
      StepKeeps(Exec(s, front), ev);
      StoredStays(Exec(s, front), ev, ca);
      ReaderStep(Exec(s, front), ev, i, ca);
    }
  }

  /** Once the pair is stored, a node that does not crash returns exactly this
      pair, whatever the others do in between, and not before its own step number
      `StepsLeft`: two from the first read, three from a certificate write, four
      from generating. */
  lemma EveryoneReturns(s: System, before: seq<Event>, evs: seq<Event>, i: nat, ca: Pair)
    requires Initial(s) && HasPair(Exec(s, before), ca)
    requires i < |Exec(s, before).pcs| && Exec(s, before).pcs[i] != Failed && Survives(evs, i)
    ensures var m, s' := Exec(s, before), Exec(Exec(s, before), evs);
            && |s'.pcs| == |m.pcs|
            && (s'.pcs[i] == Returned(ca) <==> OwnSteps(evs, i) >= StepsLeft(m.pcs[i]))
            && (s'.pcs[i].Returned? ==> s'.pcs[i] == Returned(ca))
            && StepsLeft(m.pcs[i]) <= 4
  {
    Always(s, before);
    ReaderSteps(Exec(s, before), evs, i, ca);
    var s' := Exec(Exec(s, before), evs);
    assert NodeOK(s', s'.pcs[i]);
  }

  /** And the pair does get stored: the node that wrote the certificate returns
      its own pair with its next step, unless it crashes first. */
  lemma {:induction false} WinnerFinishes(s: System, before: seq<Event>, evs: seq<Event>, i: nat, ca: Pair)
    requires Initial(s) && i < |Exec(s, before).pcs| && Exec(s, before).pcs[i] == PutKey(ca) && Survives(evs, i)
    ensures var s' := Exec(Exec(s, before), evs);
            && |s'.pcs| == |Exec(s, before).pcs| && Inv(s')
            && s'.pcs[i] == (if OwnSteps(evs, i) == 0 then PutKey(ca) else Returned(ca))
            && (OwnSteps(evs, i) > 0 ==> HasPair(s', ca))
    decreases |evs|
  {
    if evs == [] {
      Always(s, before);
    } else {
      var front, ev := evs[..|evs| - 1], evs[|evs| - 1];
      WinnerFinishes(s, before, front, i, ca);
      WinnerStep(Exec(Exec(s, before), front), ev, i, ca);
    }
  }

  lemma WinnerStep(s: System, ev: Event, i: nat, ca: Pair)
    requires Inv(s) && i < |s.pcs| && (s.pcs[i] == PutKey(ca) || s.pcs[i] == Returned(ca)) && ev != Crash(i)
    ensures var s' := Step(s, ev);
            && Inv(s') && |s'.pcs| == |s.pcs|
            && s'.pcs[i] == (if ev.Run? && ev.i == i then Returned(ca) else s.pcs[i])
            && (s'.pcs[i].Returned? ==> HasPair(s', ca))
  {
    StepKeeps(s, ev);
    assert NodeOK(s, s.pcs[i]);
    assert NodeOK(Step(s, ev), Step(s, ev).pcs[i]);
  }

  /** Without an authority, a node that is not interrupted creates one: it
      returns the pair it generated after four steps, and it is stored. */
  lemma FirstNodeReturns(s: System, evs: seq<Event>, i: nat, made: Pair)
    requires Initial(s) && CERT_PATH !in Exec(s, evs).store.objects
    requires i < |Exec(s, evs).pcs| && Exec(s, evs).pcs[i] == GetCert
    ensures var run := Run(i, made); var s' := Exec(Exec(s, evs), [run, run, run, run]);
            i < |s'.pcs| && s'.pcs[i] == Returned(made) && HasPair(s', made)
  {
    Always(s, evs);
    var m, run := Exec(s, evs), Run(i, made);
    var s1 := m.(pcs := m.pcs[i := Generate]);
    var s2 := s1.(pcs := s1.pcs[i := PutCert(made)], generated := s1.generated + {made});
    var s3 := s2.(store := PutInto(s2.store, CERT_PATH, made.cert, IF_ABSENT), pcs := s2.pcs[i := PutKey(made)]);
    assert Step(m, run) == s1 && Step(s1, run) == s2 && Step(s2, run) == s3;
    FourSteps(m, run, run, run, run);
  }

  /** Node 0 writes the certificate and crashes: from then on nobody returns,
      whatever the other nodes do. */
  lemma OrphanExample(s: System, made: Pair)
    requires Initial(s) && |s.pcs| > 0
    ensures var s' := Exec(s, [Run(0, made), Run(0, made), Run(0, made), Crash(0)]); Orphaned(s') && !CanReturn(s')
  {
    var run := Run(0, made);
    assert s.pcs[0] in s.pcs;
    var s1 := s.(pcs := s.pcs[0 := Generate]);
    var s2 := s1.(pcs := s1.pcs[0 := PutCert(made)], generated := s1.generated + {made});
    var s3 := s2.(store := PutInto(s2.store, CERT_PATH, made.cert, IF_ABSENT), pcs := s2.pcs[0 := PutKey(made)]);
    assert Step(s, run) == s1 && Step(s1, run) == s2 && Step(s2, run) == s3;
    FourSteps(s, run, run, run, Crash(0));
    var s4 := Step(s3, Crash(0));
    assert forall pc <- s4.pcs :: pc == Failed || pc in s.pcs;
    OrphanedNeverReturns(s4);
  }

  lemma FourSteps(s: System, a: Event, b: Event, d: Event, e: Event)
    ensures Exec(s, [a, b, d, e]) == Step(Step(Step(Step(s, a), b), d), e)
  {
    assert [a, b, d, e][..3] == [a, b, d] && [a, b, d][..2] == [a, b] && [a, b][..1] == [a] && [a][..0] == [];
    assert Exec(s, [a]) == Step(s, a);
    assert Exec(s, [a, b]) == Step(Step(s, a), b);
    assert Exec(s, [a, b, d]) == Step(Step(Step(s, a), b), d);
  }
}
