/**
 * Worked teardown scenarios, stated on the pure model of `serviceStopped`.
 */
module Scenarios {
  import opened Sessions
  import opened Registry

  /**
   * Two sessions authenticated for the same hostname. The first one stops
   * while the second is still connected: its connection goes and the
   * routings stay. Then the second stops: its list is emptied, the key is
   * kept, and the three routings are retracted.
   */
  lemma TwoSessionsShareHostname(h: string, s1: XmppIoService, s2: XmppIoService)
    requires s1 != s2
    ensures var c1 := ComponentConnection(0, h, s1);
      var c2 := ComponentConnection(1, h, s2);
      var st := RoutingState(map[h := [c1, c2]], Patterns(h));
      var first := StopAll(st, [c1], {s2});
      && first == RoutingState(map[h := [c2]], Patterns(h))
      && StopAll(first, [c2], {}) == RoutingState(map[h := []], {})
  {
    var c1 := ComponentConnection(0, h, s1);
    var c2 := ComponentConnection(1, h, s2);
    var st := RoutingState(map[h := [c1, c2]], Patterns(h));
    assert [c1][..0] == [] && [c2][..0] == [];
    assert RemoveFirst([c1, c2], c1) == [c2];
    assert IsLive([c2][0], {s2});
    assert AnyLive([c2], {s2});
    assert map[h := [c1, c2]][h := [c2]] == map[h := [c2]];
    assert Removal(st.connections, h, c1, {s2}) == (map[h := [c2]], true);
    assert StopAll(st, [c1], {s2}) == RemoveAndUnroute(st, c1, {s2});
    var first := RoutingState(map[h := [c2]], Patterns(h));
    assert RemoveFirst([c2], c2) == [];
    assert !AnyLive([], {});
    assert map[h := [c2]][h := []] == map[h := []];
    assert Removal(first.connections, h, c2, {}) == (map[h := []], false);
    assert StopAll(first, [c2], {}) == RemoveAndUnroute(first, c2, {});
    assert Patterns(h) - Patterns(h) == {};
  }

  /**
   * A session that bound the same hostname twice tears down both of its
   * connections; the first removal already finds no live survivor once the
   * session is disconnected, so the routings go at once while a route of
   * another hostname stays.
   */
  lemma DuplicateConnectionsBothRemoved(h: string, s: XmppIoService, other: string)
    requires other !in Patterns(h)
    ensures var c1 := ComponentConnection(0, h, s);
      var c2 := ComponentConnection(1, h, s);
      var st := RoutingState(map[h := [c1, c2]], Patterns(h) + {other});
      StopAll(st, [c1, c2], {}) == RoutingState(map[h := []], {other})
  {
    var c1 := ComponentConnection(0, h, s);
    var c2 := ComponentConnection(1, h, s);
    var st := RoutingState(map[h := [c1, c2]], Patterns(h) + {other});
    assert [c1, c2][..1] == [c1];
    assert [c1][..0] == [];
    assert RemoveFirst([c1, c2], c1) == [c2];
    assert StopAll(st, [c1], {}) == RemoveAndUnroute(st, c1, {});
    var mid := RoutingState(map[h := [c2]], Patterns(h) + {other} - Patterns(h));
    assert StopAll(st, [c1], {}) == mid;
    assert RemoveFirst([c2], c2) == [];
    assert StopAll(st, [c1, c2], {}) == RemoveAndUnroute(mid, c2, {});
  }
}
