/** The CA's identity on disk: a key file, a certificate file and a copy of the pair, written in
    that order, each write an atomic replacement, the process dying after any of them. */
module Identity {
  import opened Decimal

  /** A CA: its certificate and private key, both PEM. */
  datatype Ca = Ca(cert: string, key: string)

  /** Whether a certificate and a key parse, match, and are a CA's. Any relation at all. */
  type Pairing = (string, string) -> bool

  datatype File<+T> = Absent | Present(content: T) | Unreadable

  datatype Store = Store(key: File<string>, cert: File<string>, record: File<Ca>)

  datatype Read =
    | Found(ca: Ca)
    | Nothing
    | Refused

  predicate IsValid(valid: Pairing, ca: Ca) {
    valid(ca.cert, ca.key)
  }

  /** The identity a store holds: a valid installed pair, else the recorded copy. */
  function ReadIdentity(s: Store, valid: Pairing): Read {
    if s.record.Unreadable? then Refused
    else
      match (s.cert, s.key)
      case (Present(cert), Present(key)) =>
        if valid(cert, key) then Found(Ca(cert, key))
        else if s.record.Present? then Recorded(s.record.content, valid)
        else Refused
      case (Absent, Absent) =>
        if s.record.Present? then Recorded(s.record.content, valid) else Nothing
      case _ =>
        if s.record.Present? then Recorded(s.record.content, valid) else Refused
  }

  function Recorded(ca: Ca, valid: Pairing): Read {
    if IsValid(valid, ca) then Found(ca) else Refused
  }

  /** The store after the first `writes` writes of `ca`: the pair first, the copy last. */
  function Written(s: Store, ca: Ca, writes: nat): Store {
    Store(
      if writes >= 1 then Present(ca.key) else s.key,
      if writes >= 2 then Present(ca.cert) else s.cert,
      if writes >= 3 then Present(ca) else s.record)
  }

  /** A new CA is made only where there is no trace of one. */
  lemma NothingMeansNothing(s: Store, valid: Pairing)
    ensures ReadIdentity(s, valid) == Nothing <==> s == Store(Absent, Absent, Absent)
    ensures ReadIdentity(s, valid).Found? ==> IsValid(valid, ReadIdentity(s, valid).ca)
  {
  }

  /** What is loaded, and from where: an unreadable record is refused whatever else there is; then a
      valid pair is used as it is, whatever the record says; then a valid record; and a trace of
      anything else is refused. */
  lemma WhatIsLoaded(s: Store, valid: Pairing, ca: Ca)
    ensures ReadIdentity(s, valid) == Found(ca) <==>
      && !s.record.Unreadable? && valid(ca.cert, ca.key)
      && (|| (s.cert == Present(ca.cert) && s.key == Present(ca.key))
          || (&& s.record == Present(ca)
              && !(s.cert.Present? && s.key.Present? && valid(s.cert.content, s.key.content))))
    ensures s.record.Unreadable? ==> ReadIdentity(s, valid) == Refused
  {
  }

  /** Interrupted while making the very first identity, it is refused after the key alone, and
      the same one from the certificate on. */
  lemma FirstCreationInterrupted(valid: Pairing, ca: Ca, writes: nat)
    requires IsValid(valid, ca)
    ensures ReadIdentity(Written(Store(Absent, Absent, Absent), ca, writes), valid) ==
      if writes == 0 then Nothing else if writes == 1 then Refused else Found(ca)
  {
  }

  /** One installation over `s`, dying after any of its writes, leaves the identity that was in
      force or the one being installed -- exactly when the one state that can leave a third does
      not: the new key beside a foreign certificate it fits, or beside one it does not fit while
      there is no valid record of either. */
  lemma InstallIsSafeExactlyWhen(s: Store, valid: Pairing, ca: Ca)
    requires ReadIdentity(s, valid).Found? && IsValid(valid, ca)
    ensures
      var current := ReadIdentity(s, valid).ca.cert;
      (forall writes :: IsOneOf(ReadIdentity(Written(s, ca, writes), valid), {current, ca.cert})) <==>
      (if s.cert.Present? && valid(s.cert.content, ca.key) then s.cert.content in {current, ca.cert}
       else s.record.Present? && IsValid(valid, s.record.content) && s.record.content.cert in {current, ca.cert})
  {
    var current := ReadIdentity(s, valid).ca.cert;
    var fine := if s.cert.Present? && valid(s.cert.content, ca.key) then s.cert.content in {current, ca.cert}
                else
                  && s.record.Present? && IsValid(valid, s.record.content)
                  && s.record.content.cert in {current, ca.cert};
    assert Written(s, ca, 0) == s;
    assert fine <==> IsOneOf(ReadIdentity(Written(s, ca, 1), valid), {current, ca.cert});
    forall writes: nat | writes != 1
      ensures IsOneOf(ReadIdentity(Written(s, ca, writes), valid), {current, ca.cert})
    {
      assert writes >= 2 ==> ReadIdentity(Written(s, ca, writes), valid) == Found(ca);
    }
  }

  /** Where it is not safe: over a pair that was never recorded, the new key alone makes a store
      that is refused; over one the operator placed, one that loads the identity before it. */
  lemma AnInterruptedInstallCanLoseAPlacedPair()
    ensures
      var valid := (cert: string, key: string) => cert == key;
      var unrecorded := Store(Present("o"), Present("o"), Absent);
      var placed := Store(Present("p"), Present("p"), Present(Ca("o", "o")));
      && ReadIdentity(unrecorded, valid) == Found(Ca("o", "o"))
      && ReadIdentity(Written(unrecorded, Ca("n", "n"), 1), valid) == Refused
      && ReadIdentity(placed, valid) == Found(Ca("p", "p"))
      && ReadIdentity(Written(placed, Ca("n", "n"), 1), valid) == Found(Ca("o", "o"))
  {
  }

  predicate IsOneOf(r: Read, certs: set<string>) {
    r.Found? && r.ca.cert in certs
  }

  /** Repair, cut off after any write and run again, ends at the same identity -- except where
      the certificate on disk fits the recorded key without being the recorded certificate. */
  lemma RepairIsStableExactlyWhen(s: Store, valid: Pairing)
    requires ReadIdentity(s, valid).Found?
    ensures
      var ca := ReadIdentity(s, valid).ca;
      (forall writes :: IsOneOf(ReadIdentity(Written(s, ca, writes), valid), {ca.cert})) <==>
      !(s.cert.Present? && s.cert.content != ca.cert && valid(s.cert.content, ca.key))
  {
    var ca := ReadIdentity(s, valid).ca;
    assert Written(s, ca, 0) == s;
    assert IsOneOf(ReadIdentity(Written(s, ca, 1), valid), {ca.cert}) <==>
      !(s.cert.Present? && s.cert.content != ca.cert && valid(s.cert.content, ca.key));
    forall writes: nat | writes != 1
      ensures IsOneOf(ReadIdentity(Written(s, ca, writes), valid), {ca.cert})
    {
      assert writes >= 2 ==> ReadIdentity(Written(s, ca, writes), valid) == Found(ca);
    }
  }

  /** Where it happens: a certificate reissued for the recorded key, and a broken key file. The
      record is loaded; interrupted after rewriting the key, the reissue is. */
  lemma AnInterruptedRepairCanChangeTheIdentity()
    ensures
      var valid := (cert: string, key: string) => key == "k";
      var s := Store(Present("broken"), Present("reissued"), Present(Ca("recorded", "k")));
      && ReadIdentity(s, valid) == Found(Ca("recorded", "k"))
      && ReadIdentity(Written(s, Ca("recorded", "k"), 1), valid) == Found(Ca("reissued", "k"))
  {
    assert "broken" != "k" by { assert |"broken"| != |"k"|; }
  }

  /** Once repaired, repairing again changes nothing. */
  lemma RepairIsIdempotent(s: Store, valid: Pairing)
    requires ReadIdentity(s, valid).Found?
    ensures
      var ca := ReadIdentity(s, valid).ca;
      var repaired := Written(s, ca, 3);
      && ReadIdentity(repaired, valid) == Found(ca)
      && forall writes :: Written(repaired, ca, writes) == repaired
  {
  }

  /** What has been happening to a store: `settled` is the identity of the last completed
      operation, `pending` the one an interrupted operation was installing, `placed` the
      certificates the operator has put there since. */
  datatype History = History(store: Store, settled: Ca, pending: Option<Ca>, placed: set<string>, interrupted: bool)

  datatype Event =
    /** `restore`, or `rotate` with a pair just generated, dying after `writes` writes. */
    | Install(ca: Ca, writes: nat)
    | LoadOrCreate(generated: Ca, writes: nat)
    /** The operator overwrites the PEM files with anything, or removes them. */
    | Place(cert: File<string>, key: File<string>)

  function Settle(h: History, ca: Ca, writes: nat): History {
    if writes >= 3 then History(Written(h.store, ca, 3), ca, None, {}, false)
    else h.(store := Written(h.store, ca, writes), interrupted := true)
  }

  /** One event. After an interrupted operation comes a load, and nothing installs before one
      has completed. */
  function Step(h: History, valid: Pairing, e: Event): History {
    match e
    case Install(ca, writes) =>
      if h.interrupted || !IsValid(valid, ca) then h
      else
        var t := Settle(h, ca, writes);
        if writes >= 3 then t else t.(pending := Some(ca))
    case LoadOrCreate(generated, writes) =>
      (match ReadIdentity(h.store, valid)
       case Found(ca) => Settle(h, ca, writes)
       case Nothing => Settle(h, generated, writes)
       case Refused => h)
    case Place(cert, key) =>
      h.(store := h.store.(cert := cert, key := key),
         placed := if cert.Present? then h.placed + {cert.content} else h.placed)
  }

  function Run(h: History, valid: Pairing, events: seq<Event>): History {
    if events == [] then h
    else Step(Run(h, valid, events[..|events| - 1]), valid, events[|events| - 1])
  }

  function Allowed(h: History): set<string> {
    {h.settled.cert} + h.placed + (if h.pending.Some? then {h.pending.value.cert} else {})
  }

  ghost predicate Invariant(h: History, valid: Pairing) {
    && h.store.record == Present(h.settled) && IsValid(valid, h.settled)
    && (h.pending.Some? ==> h.interrupted && IsValid(valid, h.pending.value))
    && (h.store.cert.Present? ==> h.store.cert.content in Allowed(h))
  }

  lemma {:induction false} RunKeeps(h: History, valid: Pairing, events: seq<Event>)
    requires Invariant(h, valid)
    ensures Invariant(Run(h, valid, events), valid)
  {
    if events != [] {
      RunKeeps(h, valid, events[..|events| - 1]);
      var t, e := Run(h, valid, events[..|events| - 1]), events[|events| - 1];
      NothingMeansNothing(t.store, valid);
      assert e.LoadOrCreate? ==> ReadIdentity(t.store, valid).Found?;
    }
  }

  /** From a complete identity, through any installs, rotations, operator overwrites, crashes and
      crashing loads: what is loaded is a valid pair, and its certificate is that of the last
      operation to complete, of the one that was interrupted, or one the operator placed since.
      No new identity is ever made up. */
  lemma TheIdentityIsNeverLost(h: History, valid: Pairing, events: seq<Event>)
    requires h.store == Store(Present(h.settled.key), Present(h.settled.cert), Present(h.settled))
    requires IsValid(valid, h.settled) && h.pending == None
    ensures var t := Run(h, valid, events);
      var r := ReadIdentity(t.store, valid);
      && r.Found? && IsValid(valid, r.ca) && r.ca.cert in Allowed(t)
      && t.store.record == Present(t.settled)
      && (t.placed == {} && t.pending == None ==> r.ca.cert == t.settled.cert)
  {
    RunKeeps(h, valid, events);
  }

  /** Where a certificate fits one key only, that is the whole pair and never a mixture: the last
      to be completed, the interrupted one, or one with a certificate of the operator's. */
  lemma ThePairIsNeverMixed(h: History, valid: Pairing, events: seq<Event>)
    requires h.store == Store(Present(h.settled.key), Present(h.settled.cert), Present(h.settled))
    requires IsValid(valid, h.settled) && h.pending == None
    requires forall cert, k, l :: valid(cert, k) && valid(cert, l) ==> k == l
    ensures var t := Run(h, valid, events);
      var r := ReadIdentity(t.store, valid);
      r.Found? && (r.ca == t.settled || Some(r.ca) == t.pending || r.ca.cert in t.placed)
  {
    RunKeeps(h, valid, events);
    TheIdentityIsNeverLost(h, valid, events);
  }

  /** Why a load must come between: two installs interrupted one after the other can bring back
      the identity before both. */
  lemma TwoInterruptedInstallsBringBackAnOlderIdentity()
    ensures
      var valid := (cert: string, key: string) => cert == key;
      var old_, a, b := Ca("o", "o"), Ca("a", "a"), Ca("b", "b");
      var s := Store(Present("o"), Present("o"), Present(old_));
      && ReadIdentity(Written(s, a, 2), valid) == Found(a)
      && ReadIdentity(Written(Written(s, a, 2), b, 1), valid) == Found(old_)
  {
  }

  /** The CA directory. A `writes` below three is where the process dies. */
  class CaStore {
    var store: Store
    const valid: Pairing

    constructor (s: Store, pairing: Pairing)
      ensures store == s && valid == pairing
    {
      store, valid := s, pairing;
    }

    method Persist(ca: Ca, writes: nat) returns (done: bool)
      modifies this
      ensures store == Written(old(store), ca, writes) && done == (writes >= 3)
    {
      if writes == 0 {
        return false;
      }
      store := store.(key := Present(ca.key));
      if writes == 1 {
        return false;
      }
      store := store.(cert := Present(ca.cert));
      if writes == 2 {
        return false;
      }
      store := store.(record := Present(ca));
      done := true;
    }

    /** Load a validated CA, repairing its files, creating one only where none exists. */
    method LoadOrCreate(generated: Ca, writes: nat) returns (r: Option<Ca>)
      requires IsValid(valid, generated)
      modifies this
      ensures r.Some? <==> writes >= 3 && ReadIdentity(old(store), valid) != Refused
      ensures r.Some? ==>
        && IsValid(valid, r.value)
        && store == Store(Present(r.value.key), Present(r.value.cert), Present(r.value))
        && ReadIdentity(store, valid) == Found(r.value)
      ensures r == Some(generated) ==>
        old(store) == Store(Absent, Absent, Absent) || ReadIdentity(old(store), valid) == Found(generated)
      ensures ReadIdentity(old(store), valid) == Refused ==> r == None && store == old(store)
      ensures ReadIdentity(old(store), valid) == Nothing ==> store == Written(old(store), generated, writes)
      ensures ReadIdentity(old(store), valid).Found? ==>
        store == Written(old(store), ReadIdentity(old(store), valid).ca, writes)
    {
      var read := ReadIdentity(store, valid);
      if read == Refused {
        return None;
      }
      var ca := if read.Found? then read.ca else generated;
      var done := Persist(ca, writes);
      r := if done then Some(ca) else None;
    }

    /** Install a pair after validating it: `restore`, and `rotate` with a pair just generated. */
    method Install(ca: Ca, writes: nat) returns (done: bool)
      modifies this
      ensures !IsValid(valid, ca) ==> !done && store == old(store)
      ensures IsValid(valid, ca) ==> store == Written(old(store), ca, writes) && done == (writes >= 3)
      ensures done ==> ReadIdentity(store, valid) == Found(ca)
    {
      if !IsValid(valid, ca) {
        return false;
      }
      done := Persist(ca, writes);
    }
  }
}
