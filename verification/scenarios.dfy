/**
 Concrete runs of the model: an announce, the withdraw of the same prefix,
 and a peer notification for the configured neighbor next to a lookup of a
 neighbor that was never configured.
 */
module Scenarios {
  import opened Common
  import opened Strings
  import opened Decimal
  import opened Converting
  import opened Api
  import opened Server
  import opened Handlers

  const NEIGHBOR: string := "10.0.0.1"
  const CONFIGURATION: Configuration :=
    Configuration(65001, "10.0.0.254", Neighbor(NEIGHBOR, 65000, 65001))

  const ANNOUNCE_MSG: UpdateMessage := UpdateMessage("192.0.2.0/24", "10.0.0.2", ANNOUNCE, "65001 65002", "")
  const WITHDRAW_MSG: UpdateMessage := UpdateMessage("192.0.2.0/24", "10.0.0.2", WITHDRAW, "65001 65002", "")

  const ROUTE: Nlri := Nlri("192.0.2.0", 24)

  /** "24" is the canonical decimal of 24. */
  lemma TwentyFour()
    ensures ToUint32("24") == 24
  {
    assert Format(24) == "24";
    ToUint32Format(24);
  }

  lemma ScenarioPrefixPieces()
    ensures '/' !in "192.0.2.0" && '/' !in "24"
    ensures "192.0.2.0" + ['/'] + "24" == "192.0.2.0/24"
  {
  }

  lemma SplitScenarioPrefix()
    ensures Split("192.0.2.0/24", '/') == ["192.0.2.0", "24"]
  {
    ScenarioPrefixPieces();
    SplitNoSeparator("24", '/');
    SplitCons("192.0.2.0", '/', "24");
  }

  lemma PrefixOfScenario()
    ensures Count(ANNOUNCE_MSG.prefix, '/') == 1
    ensures PrefixNlri(ANNOUNCE_MSG.prefix) == Some(ROUTE)
  {
    SplitScenarioPrefix();
    TwentyFour();
  }

  lemma ScenarioAsPathPieces()
    ensures ' ' !in "65001" && ' ' !in "65002"
    ensures "65001" + [' '] + "65002" == "65001 65002"
  {
  }

  lemma SplitScenarioAsPath()
    ensures Split("65001 65002", ' ') == ["65001", "65002"]
  {
    ScenarioAsPathPieces();
    SplitNoSeparator("65002", ' ');
    SplitCons("65001", ' ', "65002");
  }

  lemma AsPathOfScenario()
    ensures StringsToNumbers(Split(ANNOUNCE_MSG.asPath, ' ')) == [65001, 65002]
  {
    SplitScenarioAsPath();
    AsNumber65001();
    AsNumber65002();
  }

  lemma AsNumber65001()
    ensures ToUint32("65001") == 65001
  {
    assert Format(65001) == "65001";
    ToUint32Format(65001);
  }

  lemma AsNumber65002()
    ensures ToUint32("65002") == 65002
  {
    assert Format(65002) == "65002";
    ToUint32Format(65002);
  }

  /**
   Announce of 192.0.2.0/24 via 10.0.0.2 with AS path "65001 65002": the engine
   receives NLRI (192.0.2.0, 24) with ORIGIN IGP, NEXT_HOP 10.0.0.2 and one
   AS_SEQUENCE [65001, 65002], and a sixteen-byte response yields an id.
   */
  lemma AnnounceScenario(uuid: seq<byte>)
    requires |uuid| == 16
    ensures var r := Handle(ANNOUNCE_MSG, EngineOutcome(Some(uuid), None));
      && r.call == Some(AddPath(Global, Path(IPV4_UNICAST, ROUTE,
           [Origin(0), NextHop("10.0.0.2"), AsPath([AsSegment(2, [65001, 65002])])])))
      && r.id != ""
      && r.err == None
  {
    var outcome := EngineOutcome(Some(uuid), None);
    AnnounceScenarioCall(outcome);
    AnnouncedId(ANNOUNCE_MSG, outcome);
  }

  /** An announce with a well-formed prefix and a sixteen-byte response returns an id and no error. */
  lemma AnnouncedId(msg: UpdateMessage, outcome: EngineOutcome)
    requires msg.updateType == ANNOUNCE && Count(msg.prefix, '/') == 1
    requires outcome.responseUuid.Some? && |outcome.responseUuid.value| == 16
    ensures Handle(msg, outcome).id != "" && Handle(msg, outcome).err == None
    ensures Handle(msg, outcome).call == Announce(msg, outcome).call
  {
  }

  lemma AnnounceScenarioCall(outcome: EngineOutcome)
    ensures Announce(ANNOUNCE_MSG, outcome).call == Some(AddPath(Global, Path(IPV4_UNICAST, ROUTE,
      [Origin(0), NextHop("10.0.0.2"), AsPath([AsSegment(2, [65001, 65002])])])))
    ensures Count(ANNOUNCE_MSG.prefix, '/') == 1
  {
    PrefixOfScenario();
    AsPathOfScenario();
  }

  /** Withdraw of the same prefix: a delete of NLRI (192.0.2.0, 24) with no AS_PATH, and success. */
  lemma WithdrawScenario()
    ensures var r := Handle(WITHDRAW_MSG, EngineOutcome(None, None));
      && r.call == Some(DeletePath(Global, Path(IPV4_UNICAST, ROUTE, [Origin(0), NextHop("10.0.0.2")])))
      && r.id == ""
      && r.err == None
  {
    PrefixOfScenario();
  }

  /**
   The configured neighbor reported ESTABLISHED at `now` is found in that
   state; 10.0.0.99, never configured, is not found before or after.
   */
  lemma PeerStateScenario(now: int)
    ensures var before := New(CONFIGURATION);
      var after := Run(before, [PeerStateChanged(PeerNotification(NEIGHBOR, Established), now)]);
      && Lookup(after.handler.states, NEIGHBOR) == Found(PeerState("ESTABLISHED", now))
      && Lookup(before.states, "10.0.0.99") == NotFound
      && Lookup(after.handler.states, "10.0.0.99") == NotFound
  {
    assert NEIGHBOR != "10.0.0.99" by {
      assert |NEIGHBOR| != |"10.0.0.99"|;
    }
  }
}
