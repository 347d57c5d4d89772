/**
 * The server's room store (`State` in server/src/main.rs): a map from room name
 * to a versioned blob of game data. `commit` is a compare-and-swap on the
 * version, `make_room` inserts a fresh room under an unused random name, and
 * `list` answers at once when the stored version has reached the requested one.
 * The data is opaque to the server, so it is a type parameter here.
 */
module RoomStore {

  /** A room: its version (1 when made, one more per accepted commit) and its data. */
  datatype Room<D> = Room(version: nat, data: D)

  datatype ListReq = ListReq(version: nat, room: string)
  datatype ListReply<D> = ListReply(version: nat, data: D)
  datatype CommitReq<D> = CommitReq(version: nat, room: string, data: D)
  datatype MakeRoomReq<D> = MakeRoomReq(data: D)
  datatype MakeRoomReply = MakeRoomReply(room: string)

  /**
   * What one look at the store decides for a `list` request: the room does not
   * exist (reply null), reply now, or wait for the room's next change.
   */
  datatype ListStep<D> = NoSuchRoom | ReplyNow(reply: ListReply<D>) | WaitForChange

  function ListStepOf<D>(rooms: map<string, Room<D>>, req: ListReq): (r: ListStep<D>)
    ensures r.NoSuchRoom? <==> req.room !in rooms
    ensures r.WaitForChange? <==> req.room in rooms && rooms[req.room].version < req.version
    ensures r.ReplyNow? ==>
              && req.room in rooms && r.reply.version >= req.version
              && r.reply == ListReply(rooms[req.room].version, rooms[req.room].data)
  {
    if req.room !in rooms then NoSuchRoom
    else if rooms[req.room].version < req.version then WaitForChange
    else ReplyNow(ListReply(rooms[req.room].version, rooms[req.room].data))
  }

  /** The store after a commit, and whether the commit was accepted. */
  function CommitOutcome<D>(rooms: map<string, Room<D>>, req: CommitReq<D>): (r: (map<string, Room<D>>, bool))
    ensures r.1 <==> req.room in rooms && rooms[req.room].version == req.version
    ensures !r.1 ==> r.0 == rooms
    ensures r.1 ==> r.0.Keys == rooms.Keys && r.0[req.room] == Room(rooms[req.room].version + 1, req.data)
    ensures forall name :: name in rooms && name != req.room ==> name in r.0 && r.0[name] == rooms[name]
  {
    if req.room !in rooms then (rooms, false)
    else if rooms[req.room].version != req.version then (rooms, false)
    else (rooms[req.room := Room(rooms[req.room].version + 1, req.data)], true)
  }

  /** A room name: two fruits joined by a dot. */
  function FruitName(fruits: seq<string>, draw: (nat, nat)): string
    requires draw.0 < |fruits| && draw.1 < |fruits|
  {
    fruits[draw.0] + "." + fruits[draw.1]
  }

  predicate IsFruitName(fruits: seq<string>, name: string) {
    exists a, b :: 0 <= a < |fruits| && 0 <= b < |fruits| && name == fruits[a] + "." + fruits[b]
  }

  /** Every draw picks two entries of the fruit list. */
  predicate DrawsInRange(fruits: seq<string>, draws: seq<(nat, nat)>) {
    forall k :: 0 <= k < |draws| ==> draws[k].0 < |fruits| && draws[k].1 < |fruits|
  }

  /** Some draw gives a name not yet in use, so the retry loop ends. */
  predicate HasVacantDraw<D>(rooms: map<string, Room<D>>, fruits: seq<string>, draws: seq<(nat, nat)>)
    requires DrawsInRange(fruits, draws)
  {
    exists k :: 0 <= k < |draws| && FruitName(fruits, draws[k]) !in rooms
  }

  /** The name `make_room` settles on: the first drawn name not yet in use. */
  function FirstVacantName<D>(rooms: map<string, Room<D>>, fruits: seq<string>, draws: seq<(nat, nat)>): (name: string)
    requires DrawsInRange(fruits, draws) && HasVacantDraw(rooms, fruits, draws)
    ensures name !in rooms
    ensures IsFruitName(fruits, name)
  {
    if FruitName(fruits, draws[0]) !in rooms then
      FruitName(fruits, draws[0])
    else
      var k :| 0 <= k < |draws| && FruitName(fruits, draws[k]) !in rooms;
      assert FruitName(fruits, draws[1..][k - 1]) !in rooms;
      FirstVacantName(rooms, fruits, draws[1..])
  }

  /** Every stored room has a version of at least 1: rooms are made at 1 and commits only count up. */
  predicate VersionsPositive<D>(rooms: map<string, Room<D>>) {
    forall name :: name in rooms ==> rooms[name].version >= 1
  }

  class State<D> {
    var rooms: map<string, Room<D>>

    ghost predicate Valid()
      reads this
    {
      VersionsPositive(rooms)
    }

    constructor ()
      ensures Valid() && rooms == map[]
    {
      rooms := map[];
    }

    /** One pass of `list`'s loop: None for an unknown room, a reply, or a wait for the next change. */
    method List(req: ListReq) returns (step: ListStep<D>)
      ensures step == ListStepOf(rooms, req)
    {
      if req.room !in rooms {
        step := NoSuchRoom;
      } else {
        var room := rooms[req.room];
        if room.version < req.version {
          step := WaitForChange;
        } else {
          step := ReplyNow(ListReply(room.version, room.data));
        }
      }
    }

    /** Replaces the room's data and bumps its version, if the caller saw the current version. */
    method Commit(req: CommitReq<D>) returns (ok: bool)
      requires Valid()
      modifies this
      ensures Valid()
      ensures (rooms, ok) == CommitOutcome(old(rooms), req)
    {
      if req.room !in rooms {
        return false;
      }
      var room := rooms[req.room];
      if room.version != req.version {
        return false;
      }
      rooms := rooms[req.room := Room(room.version + 1, req.data)];
      ok := true;
    }

    /**
     * Draws fruit names until one is free and stores a new room there at
     * version 1. The random draws are an input: `draws` is the sequence the
     * generator would produce.
     */
    method MakeRoom(req: MakeRoomReq<D>, fruits: seq<string>, draws: seq<(nat, nat)>) returns (reply: MakeRoomReply)
      requires Valid()
      requires DrawsInRange(fruits, draws) && HasVacantDraw(rooms, fruits, draws)
      modifies this
      ensures Valid()
      ensures reply.room == FirstVacantName(old(rooms), fruits, draws)
      ensures reply.room !in old(rooms) && IsFruitName(fruits, reply.room)
      ensures rooms == old(rooms)[reply.room := Room(1, req.data)]
    {
      var k := 0;
      var room := FruitName(fruits, draws[0]);
      while room in rooms
        invariant 0 <= k < |draws| && room == FruitName(fruits, draws[k])
        invariant HasVacantDraw(rooms, fruits, draws[k..])
        invariant FirstVacantName(rooms, fruits, draws[k..]) == FirstVacantName(rooms, fruits, draws)
        decreases |draws| - k
      {
        var j :| 0 <= j < |draws[k..]| && FruitName(fruits, draws[k..][j]) !in rooms;
        assert j != 0;
        assert draws[k..][1..] == draws[k + 1..];
        assert FruitName(fruits, draws[k + 1..][j - 1]) !in rooms;
        k := k + 1;
        room := FruitName(fruits, draws[k]);
      }
      rooms := rooms[room := Room(1, req.data)];
      reply := MakeRoomReply(room);
    }
  }

  /** One change to the store: a commit, or one attempt of `make_room` with a drawn name. */
  datatype Op<D> = CommitOp(req: CommitReq<D>) | MakeRoomAttempt(name: string, data: D)

  /** An attempt on a name in use changes nothing (the loop draws again); otherwise the room is made. */
  function ApplyOp<D>(rooms: map<string, Room<D>>, op: Op<D>): map<string, Room<D>> {
    match op
    case CommitOp(req) => CommitOutcome(rooms, req).0
    case MakeRoomAttempt(name, data) => if name in rooms then rooms else rooms[name := Room(1, data)]
  }

  function ApplyOps<D>(rooms: map<string, Room<D>>, ops: seq<Op<D>>): map<string, Room<D>>
    decreases |ops|
  {
    if ops == [] then rooms else ApplyOps(ApplyOp(rooms, ops[0]), ops[1..])
  }

  /** No sequence of commits and room creations removes a room or lowers its version. */
  lemma {:induction false} VersionsNeverDecrease<D>(rooms: map<string, Room<D>>, ops: seq<Op<D>>, name: string)
    requires name in rooms
    ensures name in ApplyOps(rooms, ops)
    ensures ApplyOps(rooms, ops)[name].version >= rooms[name].version
    decreases |ops|
  {
    if ops != [] {
      var next := ApplyOp(rooms, ops[0]);
      assert name in next && next[name].version >= rooms[name].version;
      VersionsNeverDecrease(next, ops[1..], name);
    }
  }

  /** No sequence of commits and room creations breaks the version invariant of the store. */
  lemma {:induction false} OpsKeepVersionsPositive<D>(rooms: map<string, Room<D>>, ops: seq<Op<D>>)
    requires VersionsPositive(rooms)
    ensures VersionsPositive(ApplyOps(rooms, ops))
    decreases |ops|
  {
    if ops != [] {
      var next := ApplyOp(rooms, ops[0]);
      assert VersionsPositive(next);
      OpsKeepVersionsPositive(next, ops[1..]);
    }
  }

  /**
   * Under the invariant, a reader that has seen no version of an existing room
   * yet (requested version 0 or 1) is answered at once with the stored state.
   */
  lemma FreshReaderNeverWaits<D>(rooms: map<string, Room<D>>, req: ListReq)
    requires VersionsPositive(rooms)
    requires req.room in rooms && req.version <= 1
    ensures ListStepOf(rooms, req) == ReplyNow(ListReply(rooms[req.room].version, rooms[req.room].data))
  {
  }

  /**
   * An accepted commit answers every waiting `list` whose requested version
   * it reaches, with the committed data; a rejected one leaves every answer as it was.
   */
  lemma CommitReleasesWaiters<D>(rooms: map<string, Room<D>>, req: CommitReq<D>, listReq: ListReq)
    requires listReq.room == req.room
    ensures var (after, ok) := CommitOutcome(rooms, req);
      && (ok && listReq.version <= req.version + 1 ==>
           ListStepOf(after, listReq) == ReplyNow(ListReply(req.version + 1, req.data)))
      && (!ok ==> ListStepOf(after, listReq) == ListStepOf(rooms, listReq))
  {
  }
}
