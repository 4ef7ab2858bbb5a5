/** Some order in which to walk a finite set. */
module SetOrder {
  ghost function Walk(keys: set<int>): (r: seq<int>)
    ensures forall k :: k in r <==> k in keys
    ensures forall i, j :: 0 <= i < j < |r| ==> r[i] != r[j]
  {
    if exists k :: k in keys then
      var k :| k in keys;
      var rest := Walk(keys - {k});
      assert forall i :: 0 <= i < |rest| ==> rest[i] in rest;
      [k] + rest
    else []
  }
}

/** The conditions of the end-to-end results can be met: two ends, a file and a disk that satisfy them. */
module Possible {
  import opened ByteStrings
  import opened Crypto
  import opened SecureChannel
  import opened Announcement
  import opened HandshakeStates
  import opened Delivery
  import opened Transfer
  import Destination
  import SenderSession
  import opened SetOrder
  import R = Receiver
  import S = Sender

  const FILE := S.OutgoingFile([97], [], false, [1, 2, 3], TWO63 + 7)

  ghost function SomeSender(p: Primitives): S.SenderEnv {
    S.SenderEnv(p, k => Zeros(16), k => 5, 1, Zeros(32), Zeros(4), Zeros(16), [], Zeros(72), Zeros(6), [FILE])
  }

  ghost function SomeReceiver(p: Primitives): R.Env {
    R.Env(p, k => Zeros(16), k => 6, 2, Zeros(32), Zeros(72), Zeros(6), b => "a", n => "t", "/d", n => true, Walk, {})
  }

  lemma FileFits()
    ensures Announceable([FILE]) && TotalSize([FILE]) == 3
    ensures |S.IntroductionBody([FILE])| <= 1000
  {
    hide S.IntroductionBody;
    assert [FILE][1..] == [];
    assert TotalSize([FILE]) == |FILE.content| + TotalSize([]);
    SenderSession.IntroductionSize([FILE]);
    assert SenderSession.ListSize([FILE]) == 141 + SenderSession.ListSize([]);
  }

  lemma EndsExist()
    ensures exists h: Peers, draws: (nat, nat) -> u64 :: Meeting(h, draws) && Unhindered(h)
  {
    LawsAreConsistent();
    var p: Primitives :| Lawful(p);
    FileFits();
    var e, g := SomeSender(p), SomeReceiver(p);
    assert S.GoodSenderEnv(e);
    ReceiverGood(p);
    var h := Peers(e, g, map[], 100, -1, 1000, 1000);
    var draws: (nat, nat) -> u64 := (k, attempt) => TWO63 + 7;
    assert S.WithIds([FILE], draws) == [FILE];
    MeetingParts(h, draws);
  }

  lemma ReceiverGood(p: Primitives)
    ensures R.GoodEnv(SomeReceiver(p))
  {
    var g := SomeReceiver(p);
    forall keys: set<int>
      ensures R.IsOrder(g.order(keys), keys)
    {
      assert g.order(keys) == Walk(keys);
    }
  }

  lemma MeetingParts(h: Peers, draws: (nat, nat) -> u64)
    requires h.e.p == h.g.p && Lawful(h.e.p) && S.GoodSenderEnv(h.e) && R.GoodEnv(h.g)
    requires h.senderLink >= 10 && h.receiverLink >= 8 && h.consent != 0 && h.e.files == [FILE] && h.space == 100
    requires Announceable([FILE]) && TotalSize([FILE]) == 3 && |S.IntroductionBody([FILE])| <= 1000
    requires h.g.preflight(3) && h.g.unopenable == {} && S.WithIds([FILE], draws) == [FILE]
    ensures Meeting(h, draws) && Unhindered(h)
  {
    hide Lawful, Announceable, S.GoodSenderEnv, R.GoodEnv, S.IntroductionBody, TotalSize;
  }
}
