// Replication end to end: what one server announces travels through the framing of replication.go
// and is merged into the store of another.
module Replication {
  import opened Common
  import opened Messages
  import opened Framing
  import opened Addresses
  import opened Store

  // replicationSender.send: seen is not sent.
  function Sent(announcements: seq<Announce>): (r: seq<ReplicationRecord>)
    ensures |r| == |announcements|
    ensures forall i :: 0 <= i < |r| ==> r[i] == ReplicationRecord(announcements[i].key, announcements[i].addrs, 0)
  {
    if announcements == [] then []
    else
      var n := |announcements| - 1;
      Sent(announcements[..n]) + [ReplicationRecord(announcements[n].key, announcements[n].addrs, 0)]
  }

  // What the listener's handler merges.
  function Merges(records: seq<ReplicationRecord>): (r: seq<Announce>)
    ensures |r| == |records|
    ensures forall i :: 0 <= i < |r| ==> r[i] == Announce(records[i].key, records[i].addresses)
  {
    if records == [] then []
    else
      var n := |records| - 1;
      Merges(records[..n]) + [Announce(records[n].key, records[n].addresses)]
  }

  // The outbox of a sender: the announcements in order, with heartbeats anywhere between them.
  ghost predicate IsOutbox(outbox: seq<ReplicationRecord>, announcements: seq<Announce>) {
    && Payload(outbox) == Payload(Sent(announcements))
    && forall m :: m in outbox ==> |EncodeReplication(m)| < 0x1_0000_0000
  }

  lemma {:induction false} PayloadAppend(ms: seq<ReplicationRecord>, m: ReplicationRecord)
    ensures Payload(ms + [m]) == if m == HEARTBEAT then Payload(ms) else Payload(ms) + [m]
    decreases |ms|
  {
    if ms == [] {
      assert [m][1..] == [];
    } else {
      assert (ms + [m])[1..] == ms[1..] + [m];
      PayloadAppend(ms[1..], m);
    }
  }

  lemma MergesAppend(records: seq<ReplicationRecord>, m: ReplicationRecord)
    ensures Merges(records + [m]) == Merges(records) + [Announce(m.key, m.addresses)]
  {
    assert (records + [m])[..|records|] == records;
  }

  // An announcement of nothing under the empty key looks like a heartbeat, but nothing is known
  // from it either.
  lemma NothingKnown(history: seq<Announce>, key: Key)
    ensures Known(history + [Announce([], [])], key) == Known(history, key)
  {
    KnownAfter(history, Announce([], []), key);
    assert Latest([]) == map[];
    assert Join(map[], Known(history, key)) == Known(history, key);
  }

  lemma {:induction false} PayloadIsKnown(announcements: seq<Announce>, key: Key)
    ensures Known(Merges(Payload(Sent(announcements))), key) == Known(announcements, key)
    decreases |announcements|
  {
    hide Payload, Merges, Known;
    if announcements == [] {
      NoneSent();
    } else {
      var n := |announcements| - 1;
      var front, a := announcements[..n], announcements[n];
      var m := ReplicationRecord(a.key, a.addrs, 0);
      assert announcements == front + [a];
      PayloadIsKnown(front, key);
      PayloadAppend(Sent(front), m);
      KnownAfter(front, a, key);
      if m == HEARTBEAT {
        NothingKnown(front, key);
      } else {
        MergesAppend(Payload(Sent(front)), m);
        KnownAfter(Merges(Payload(Sent(front))), a, key);
      }
    }
  }

  lemma NoneSent()
    ensures Payload([]) == [] && Merges([]) == []
  {
  }

  // Over an unbroken connection, the receiver comes to know exactly what was announced, for every
  // key, whatever heartbeats travel along.
  lemma ReplicationIsComplete(announcements: seq<Announce>, outbox: seq<ReplicationRecord>, key: Key)
    requires IsOutbox(outbox, announcements)
    ensures Known(Merges(Receive(Stream(outbox)).records), key) == Known(announcements, key)
  {
    SentIsReceived(outbox);
    PayloadIsKnown(announcements, key);
  }

  lemma {:induction false} PayloadPrefix(announcements: seq<Announce>, records: seq<ReplicationRecord>) returns (n: nat)
    requires records <= Payload(Sent(announcements))
    ensures n <= |announcements| && records == Payload(Sent(announcements[..n]))
    decreases |announcements|
  {
    hide Payload;
    n := |announcements|;
    assert announcements[..n] == announcements;
    if records != Payload(Sent(announcements)) {
      if n == 0 {
        NoneSent();
      } else {
        var front := announcements[..n - 1];
        PayloadAppend(Sent(front), ReplicationRecord(announcements[n - 1].key, announcements[n - 1].addrs, 0));
        n := PayloadPrefix(front, records);
        assert front[..n] == announcements[..n];
      }
    }
  }

  // Over a connection that breaks anywhere, it knows what a prefix of the announcements says.
  lemma ReplicationIsPrefix(announcements: seq<Announce>, outbox: seq<ReplicationRecord>, cut: seq<byte>)
    returns (n: nat)
    requires IsOutbox(outbox, announcements) && cut <= Stream(outbox)
    ensures n <= |announcements|
    ensures forall key :: Known(Merges(Receive(cut).records), key) == Known(announcements[..n], key)
  {
    BrokenConnection(outbox, cut);
    n := PayloadPrefix(announcements, Receive(cut).records);
    forall key ensures Known(Merges(Receive(cut).records), key) == Known(announcements[..n], key) {
      PayloadIsKnown(announcements[..n], key);
    }
  }

  // ---------- two servers ----------

  lemma {:induction false} PayloadElements(announcements: seq<Announce>, a: Announce)
    requires a != Announce([], [])
    ensures a in Merges(Payload(Sent(announcements))) <==> a in announcements
    decreases |announcements|
  {
    hide Payload, Merges;
    if announcements == [] {
      NoneSent();
    } else {
      var n := |announcements| - 1;
      var front, last := announcements[..n], announcements[n];
      var m := ReplicationRecord(last.key, last.addrs, 0);
      assert announcements == front + [last];
      PayloadElements(front, a);
      PayloadAppend(Sent(front), m);
      MergesAppend(Payload(Sent(front)), m);
    }
  }

  // The store has merged its own announcements and those that came in, in any order.
  ghost predicate HasMerged(history: seq<Announce>, own: seq<Announce>, received: seq<ReplicationRecord>) {
    forall a :: a in history <==> a in own || a in Merges(received)
  }

  // Two servers that replicate to each other over unbroken connections answer every lookup with the
  // same addresses, wherever a device announced itself. Device keys are not empty.
  lemma ReplicatingServersAnswerAlike(own1: seq<Announce>, outbox1: seq<ReplicationRecord>,
                                      own2: seq<Announce>, outbox2: seq<ReplicationRecord>,
                                      e1: seq<Event>, s1: seq<State>, n1: nat,
                                      e2: seq<Event>, s2: seq<State>, n2: nat, key: Key)
    requires key != [] && IsOutbox(outbox1, own1) && IsOutbox(outbox2, own2)
    requires Run(e1, s1) && n1 < |s1| && forall i :: 0 <= i < n1 ==> Unsplit(s1[i], e1[i])
    requires Run(e2, s2) && n2 < |s2| && forall i :: 0 <= i < n2 ==> Unsplit(s2[i], e2[i])
    requires s1[n1].now == s2[n2].now
    requires HasMerged(s1[n1].history, own1, Receive(Stream(outbox2)).records)
    requires HasMerged(s2[n2].history, own2, Receive(Stream(outbox1)).records)
    ensures Latest(Lookup(s1[n1].db, key, s1[n1].now).addresses) == Latest(Lookup(s2[n2].db, key, s2[n2].now).addresses)
  {
    hide Run, Unsplit, Receive, Payload;
    SentIsReceived(outbox1);
    SentIsReceived(outbox2);
    forall addrs ensures Announce(key, addrs) in s1[n1].history <==> Announce(key, addrs) in s2[n2].history {
      PayloadElements(own1, Announce(key, addrs));
      PayloadElements(own2, Announce(key, addrs));
    }
    ReplicasAnswerAlike(e1, s1, n1, e2, s2, n2, key);
  }
}
