/** Player-list bookkeeping of the world views: the duplicate-id check that
    `handlePacket` runs on the players array, and the deletion loop of the
    players observer, both as written and with the lookup it evidently
    meant. */
module Players {
  import opened Base

  /** A `Player`: the view of one player map, known here by its `playerId`. */
  datatype Player = Player(playerId: JsValue)

  /** The errors the harness throws: a players array listing an id twice,
      and a deleted player the observer cannot find. */
  datatype PlayerError =
    | DuplicatePlayerId(id: JsValue)
    | DeleteNonexistentPlayer(id: JsValue)

  /** The id at position `m` did not occur before it. */
  predicate FirstSeenAt(ids: seq<JsValue>, m: nat)
    requires m < |ids|
  {
    ids[m] !in ids[..m]
  }

  /** The first position whose id already occurred before it. */
  function FirstRepeat(ids: seq<JsValue>): (r: Option<nat>)
    ensures r.Some? ==> r.value < |ids| && !FirstSeenAt(ids, r.value)
    ensures r.Some? ==> forall m :: 0 <= m < r.value ==> FirstSeenAt(ids, m)
    ensures r.None? <==> forall m :: 0 <= m < |ids| ==> FirstSeenAt(ids, m)
    decreases |ids|
  {
    if ids == [] then None
    else
      var n := |ids| - 1;
      var init := ids[..n];
      forall m | 0 <= m < n
        ensures FirstSeenAt(init, m) == FirstSeenAt(ids, m)
      {
        assert init[..m] == ids[..m];
      }
      match FirstRepeat(init)
      case Some(k) => Some(k)
      case None => if ids[n] in init then Some(n) else None
  }

  /** There is no repeat exactly when no id occurs twice. */
  lemma NoRepeatIffUnique(ids: seq<JsValue>)
    ensures FirstRepeat(ids).None? <==> Unique(ids)
  {
    UniqueIff(ids);
    if !Unique(ids) {
      var i, j :| 0 <= i < j < |ids| && ids[i] == ids[j];
      assert ids[j] in ids[..j];
    }
  }

  /** The check at the end of `handlePacket`: walk the players array, keep a
      set of ids seen, and throw at the first id seen before. */
  method CheckPlayerIds(ids: seq<JsValue>) returns (r: Outcome<PlayerError>)
    ensures r.Pass? <==> Unique(ids)
    ensures r.Fail? ==> FirstRepeat(ids).Some? && r.error == DuplicatePlayerId(ids[FirstRepeat(ids).value])
  {
    NoRepeatIffUnique(ids);
    var playerIdSet: set<JsValue> := {};
    var i := 0;
    while i < |ids|
      invariant 0 <= i <= |ids|
      invariant forall x :: x in playerIdSet <==> x in ids[..i]
      invariant forall m :: 0 <= m < i ==> FirstSeenAt(ids, m)
    {
      var playerId := ids[i];
      assert ids[..i + 1] == ids[..i] + [playerId];
      if playerId !in playerIdSet {
        playerIdSet := playerIdSet + {playerId};
      } else {
        assert !FirstSeenAt(ids, i);
        return Fail(DuplicatePlayerId(playerId));
      }
      i := i + 1;
    }
    return Pass;
  }

  /** What the deletion loop leaves: the remaining players and, if a deletion
      found no player, the id it threw for. */
  datatype Removal = Removal(players: seq<Player>, failed: Option<JsValue>)

  /** `remotePlayers.findIndex(...)` with the observer's predicate applied to
      the deleted id. */
  function FindMatch(ps: seq<Player>, id: JsValue, matches: (JsValue, Player) -> bool): (r: Option<nat>)
    ensures r.Some? ==> r.value < |ps| && matches(id, ps[r.value])
    ensures r.Some? ==> forall j :: 0 <= j < r.value ==> !matches(id, ps[j])
    ensures r.None? <==> forall j :: 0 <= j < |ps| ==> !matches(id, ps[j])
  {
    FindIndex(ps, p => matches(id, p))
  }

  /** The loop over `e.deleted`: for each deleted id in turn, splice out the
      first player that `matches` it, or throw for that id and stop. */
  function DeletePlayers(ps: seq<Player>, deleted: seq<JsValue>, matches: (JsValue, Player) -> bool): (r: Removal)
    ensures multiset(r.players) <= multiset(ps)
    ensures r.failed.None? ==> |r.players| == |ps| - |deleted|
    ensures r.failed.Some? ==> r.failed.value in deleted
    decreases |deleted|
  {
    if deleted == [] then Removal(ps, None)
    else
      var id := deleted[0];
      match FindMatch(ps, id, matches)
      case None => Removal(ps, Some(id))
      case Some(k) => DeletePlayers(RemoveAt(ps, k), deleted[1..], matches)
  }

  /** The predicate the observer passes to `findIndex`: any player whose id
      is truthy, whichever id was deleted. */
  predicate AsWrittenMatch(id: JsValue, p: Player)
    ensures AsWrittenMatch(id, p) <==> p.playerId != Undefined && p.playerId != Null && p.playerId != Str("")
  {
    Truthy(p.playerId)
  }

  /** The lookup the error message names: the player with the deleted id. */
  predicate ByIdMatch(id: JsValue, p: Player) {
    p.playerId == id
  }

  function CountTruthy(ps: seq<Player>): (n: nat)
    ensures n <= |ps|
  {
    if ps == [] then 0 else (if Truthy(ps[0].playerId) then 1 else 0) + CountTruthy(ps[1..])
  }

  lemma {:induction false} CountTruthyRemove(ps: seq<Player>, k: nat)
    requires k < |ps| && Truthy(ps[k].playerId)
    ensures CountTruthy(RemoveAt(ps, k)) == CountTruthy(ps) - 1
  {
    if k > 0 {
      CountTruthyRemove(ps[1..], k - 1);
      assert RemoveAt(ps, k) == [ps[0]] + RemoveAt(ps[1..], k - 1);
    } else {
      assert RemoveAt(ps, k) == ps[1..];
    }
  }

  lemma {:induction false} CountTruthyNone(ps: seq<Player>)
    requires forall j :: 0 <= j < |ps| ==> !Truthy(ps[j].playerId)
    ensures CountTruthy(ps) == 0
  {
    if ps != [] {
      CountTruthyNone(ps[1..]);
    }
  }

  /** As written, the loop succeeds exactly when there are at least as many
      players with a truthy id as deletions; it then removes one such player
      per deletion, never looking at the deleted ids. */
  lemma {:induction false} AsWrittenOutcome(ps: seq<Player>, deleted: seq<JsValue>)
    ensures var r := DeletePlayers(ps, deleted, AsWrittenMatch);
      && (r.failed.None? <==> |deleted| <= CountTruthy(ps))
      && (r.failed.None? ==> |r.players| == |ps| - |deleted| && CountTruthy(r.players) == CountTruthy(ps) - |deleted|)
    decreases |deleted|
  {
    if deleted != [] {
      var id := deleted[0];
      match FindMatch(ps, id, AsWrittenMatch)
      case None =>
        CountTruthyNone(ps);
      case Some(k) =>
        CountTruthyRemove(ps, k);
        AsWrittenOutcome(RemoveAt(ps, k), deleted[1..]);
    }
  }

  /** Two players "a" and "b"; "b" leaves. As written the observer removes "a"
      and keeps "b". */
  lemma AsWrittenRemovesWrongPlayer()
    ensures DeletePlayers([Player(Str("a")), Player(Str("b"))], [Str("b")], AsWrittenMatch)
            == Removal([Player(Str("b"))], None)
  {
    var ps := [Player(Str("a")), Player(Str("b"))];
    assert FindMatch(ps, Str("b"), AsWrittenMatch) == Some(0);
    assert RemoveAt(ps, 0) == [Player(Str("b"))];
  }

  /** The same leave with the id looked up: "b" is removed and "a" stays. */
  lemma ByIdRemovesNamedPlayer()
    ensures DeletePlayers([Player(Str("a")), Player(Str("b"))], [Str("b")], ByIdMatch)
            == Removal([Player(Str("a"))], None)
  {
    var ps := [Player(Str("a")), Player(Str("b"))];
    assert FindMatch(ps, Str("b"), ByIdMatch) == Some(1);
    assert RemoveAt(ps, 1) == [Player(Str("a"))];
  }

  function AsPlayers(ids: seq<JsValue>): (r: seq<Player>)
    ensures |r| == |ids| && forall i :: 0 <= i < |ids| ==> r[i] == Player(ids[i])
  {
    seq(|ids|, i requires 0 <= i < |ids| => Player(ids[i]))
  }

  lemma AsPlayersFront(ids: seq<JsValue>)
    requires ids != []
    ensures AsPlayers(ids) == [Player(ids[0])] + AsPlayers(ids[1..])
  {
    assert |AsPlayers(ids)| == |[Player(ids[0])] + AsPlayers(ids[1..])|;
    forall i | 0 <= i < |ids|
      ensures AsPlayers(ids)[i] == ([Player(ids[0])] + AsPlayers(ids[1..]))[i]
    {
      if i > 0 {
        assert AsPlayers(ids[1..])[i - 1] == Player(ids[i]);
      }
    }
  }

  /** Taking one `x` off both the deletions and the players keeps the
      outcome: the multiset algebra of one step of `ByIdFound`. */
  lemma SettleStep(all: multiset<Player>, tail: multiset<Player>, ps: multiset<Player>, rest: multiset<Player>,
                   x: Player, ok: bool, kept: multiset<Player>)
    requires all == tail + multiset{x} && rest + multiset{x} == ps
    requires ok <==> tail <= rest
    requires ok ==> kept + tail == rest
    ensures ok <==> all <= ps
    ensures ok ==> kept + all == ps
  {
    assert ps - multiset{x} == rest;
    SubMultisetStep(tail, ps, x);
  }

  lemma AsPlayersSnoc(ids: seq<JsValue>, i: nat)
    requires i < |ids|
    ensures AsPlayers(ids[..i + 1]) == AsPlayers(ids[..i]) + [Player(ids[i])]
  {
  }

  lemma SubMultisetStep(a: multiset<Player>, p: multiset<Player>, x: Player)
    requires x in p
    ensures a + multiset{x} <= p <==> a <= p - multiset{x}
  {
    if a <= p - multiset{x} {
      forall y ensures (a + multiset{x})[y] <= p[y] {
      }
    }
    if a + multiset{x} <= p {
      forall y ensures a[y] <= (p - multiset{x})[y] {
        assert (a + multiset{x})[y] <= p[y];
      }
    }
  }

  /** What looking the deleted ids up promises: the loop succeeds exactly
      when every deleted id names a remaining player (counting repeats), and
      then it removes exactly those players and keeps everyone else. */
  predicate ByIdSettles(ps: seq<Player>, deleted: seq<JsValue>) {
    var r := DeletePlayers(ps, deleted, ByIdMatch);
    && (r.failed.None? <==> multiset(AsPlayers(deleted)) <= multiset(ps))
    && (r.failed.None? ==> multiset(r.players) + multiset(AsPlayers(deleted)) == multiset(ps))
  }

  lemma {:induction false} ByIdOutcome(ps: seq<Player>, deleted: seq<JsValue>)
    ensures ByIdSettles(ps, deleted)
    decreases |deleted|
  {
    if deleted != [] {
      var found := FindMatch(ps, deleted[0], ByIdMatch);
      if found.None? {
        ByIdMissing(ps, deleted);
      } else {
        ByIdOutcome(RemoveAt(ps, found.value), deleted[1..]);
        ByIdFound(ps, deleted, found.value);
      }
    }
  }

  /** One step of the loop: once the first deleted id is found at `k`, what
      holds for the later ids after removing that player holds for all. */
  lemma ByIdFound(ps: seq<Player>, deleted: seq<JsValue>, k: nat)
    requires deleted != [] && FindMatch(ps, deleted[0], ByIdMatch) == Some(k)
    requires ByIdSettles(RemoveAt(ps, k), deleted[1..])
    ensures ByIdSettles(ps, deleted)
  {
    var rest := RemoveAt(ps, k);
    var r := DeletePlayers(rest, deleted[1..], ByIdMatch);
    ByIdStep(ps, deleted, k);
    AsPlayersFrontMultiset(deleted);
    SettleStep(multiset(AsPlayers(deleted)), multiset(AsPlayers(deleted[1..])), multiset(ps), multiset(rest),
               Player(deleted[0]), r.failed.None?, multiset(r.players));
  }

  lemma AsPlayersFrontMultiset(ids: seq<JsValue>)
    requires ids != []
    ensures multiset(AsPlayers(ids)) == multiset(AsPlayers(ids[1..])) + multiset{Player(ids[0])}
  {
    AsPlayersFront(ids);
  }

  /** Finding the first deleted id at `k` removes exactly that player and
      goes on with the later ids. */
  lemma ByIdStep(ps: seq<Player>, deleted: seq<JsValue>, k: nat)
    requires deleted != [] && FindMatch(ps, deleted[0], ByIdMatch) == Some(k)
    ensures k < |ps| && multiset(RemoveAt(ps, k)) + multiset{Player(deleted[0])} == multiset(ps)
    ensures DeletePlayers(ps, deleted, ByIdMatch) == DeletePlayers(RemoveAt(ps, k), deleted[1..], ByIdMatch)
  {
    assert ps[k] == Player(deleted[0]);
  }

  lemma ByIdMissing(ps: seq<Player>, deleted: seq<JsValue>)
    requires deleted != [] && FindMatch(ps, deleted[0], ByIdMatch).None?
    ensures DeletePlayers(ps, deleted, ByIdMatch).failed.Some?
    ensures !(multiset(AsPlayers(deleted)) <= multiset(ps))
  {
    var x := Player(deleted[0]);
    assert x !in ps;
    assert AsPlayers(deleted)[0] == x;
    assert multiset(AsPlayers(deleted))[x] > 0;
  }
}
