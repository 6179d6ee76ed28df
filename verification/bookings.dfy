/**
 The booking store behind `/api/bookings`. Each handler reads the whole
 collection, transforms it, and writes the whole collection back; here each
 is a pure transition from the stored sequence to a response and the sequence
 stored afterwards. A booking is the JSON object as the client sent it,
 merged with server defaults, so it is a map from field names to strings.
 The clock, the id token and the outcome of the file I/O are parameters.
 */
module Bookings {
  import opened Wrappers
  import JsNumber

  type Booking = map<string, string>

  /** Whether the read of the bookings file and the write back succeed. */
  datatype Io = Io(readOk: bool, writeOk: bool)

  datatype Response =
    | Created(booking: Booking)      // 201 {message, booking}
    | Listed(bookings: seq<Booking>) // 200 [booking]
    | Updated(booking: Booking)      // 200 {message, booking}
    | Deleted                        // 200 {message}
    | NotFound                       // 404 {error}
    | ServerError                    // 500 {error}

  /** The response, and the collection stored once the handler is done. */
  datatype Outcome = Outcome(response: Response, store: seq<Booking>)

  /** `b.id === id`; a booking without an `id` field matches no id. */
  predicate HasId(b: Booking, id: string) {
    "id" in b && b["id"] == id
  }

  /** The id the server proposes for a booking created at `now` milliseconds: `BK` and the digits. */
  function NewId(now: nat): string {
    "BK" + JsNumber.NatToString(now)
  }

  /** The fields the server fills in before the request body is spread over them. */
  function Defaults(now: nat, isoNow: string): (d: Booking)
    ensures d.Keys == {"id", "timestamp", "status"}
  {
    map["id" := NewId(now), "timestamp" := isoNow, "status" := "pending"]
  }

  /**
   POST `/api/bookings`: the defaults overridden by every field of the body,
   appended at the end of the collection. No field is required, and a body
   that carries `id`, `timestamp` or `status` wins over the server's value.
   */
  function Create(store: seq<Booking>, body: Booking, now: nat, isoNow: string, io: Io): (o: Outcome)
    ensures !(io.readOk && io.writeOk) ==> o == Outcome(ServerError, store)
    ensures io.readOk && io.writeOk ==>
      && o.response.Created?
      && o.store == store + [o.response.booking]
      && o.response.booking.Keys == body.Keys + {"id", "timestamp", "status"}
      && (forall f | f in body :: o.response.booking[f] == body[f])
      && (forall f | f in Defaults(now, isoNow) && f !in body :: o.response.booking[f] == Defaults(now, isoNow)[f])
  {
    var booking := Defaults(now, isoNow) + body;
    if !io.readOk || !io.writeOk then Outcome(ServerError, store)
    else Outcome(Created(booking), store + [booking])
  }

  /** GET `/api/bookings`: the whole collection, in insertion order. */
  function List(store: seq<Booking>, io: Io): (o: Outcome)
    ensures o.store == store
    ensures io.readOk <==> o.response == Listed(store)
    ensures !io.readOk ==> o.response == ServerError
  {
    if io.readOk then Outcome(Listed(store), store) else Outcome(ServerError, store)
  }

  /** `bookings.findIndex(b => b.id === id)`, with `None` for `-1`. */
  function FindIndex(store: seq<Booking>, id: string): (r: Option<nat>)
    ensures r.Some? ==> r.value < |store| && HasId(store[r.value], id)
    ensures r.Some? ==> forall k | 0 <= k < r.value :: !HasId(store[k], id)
    ensures r.None? <==> forall k | 0 <= k < |store| :: !HasId(store[k], id)
  {
    if |store| == 0 then None
    else if HasId(store[0], id) then Some(0)
    else
      match FindIndex(store[1..], id)
      case None => None
      case Some(k) => Some(k + 1)
  }

  /** The booking an update produces: the old fields, overridden by the body, with `id` forced back. */
  function Patch(current: Booking, body: Booking, id: string): (b: Booking)
    ensures b.Keys == current.Keys + body.Keys + {"id"}
    ensures HasId(b, id)
    ensures forall f | f in body && f != "id" :: b[f] == body[f]
    ensures forall f | f in current && f !in body && f != "id" :: b[f] == current[f]
  {
    current + body + map["id" := id]
  }

  /**
   PATCH `/api/bookings/:id`: only the first booking with that id is
   replaced by its patched version; an id no booking has gives 404 and
   nothing is written.
   */
  function Update(store: seq<Booking>, id: string, body: Booking, io: Io): (o: Outcome)
    ensures !io.readOk ==> o == Outcome(ServerError, store)
    ensures io.readOk && (forall k | 0 <= k < |store| :: !HasId(store[k], id)) ==> o == Outcome(NotFound, store)
    ensures io.readOk && !io.writeOk ==> o.store == store && o.response in {NotFound, ServerError}
    ensures io.readOk && io.writeOk && (exists k | 0 <= k < |store| :: HasId(store[k], id)) ==> o.response.Updated?
    ensures io.readOk && !io.writeOk && (exists k | 0 <= k < |store| :: HasId(store[k], id)) ==> o == Outcome(ServerError, store)
    ensures o.response.Updated? ==>
      var k := FindIndex(store, id).value;
      && io.readOk && io.writeOk
      && o.store == store[k := Patch(store[k], body, id)]
      && o.response.booking == Patch(store[k], body, id)
  {
    if !io.readOk then Outcome(ServerError, store)
    else
      match FindIndex(store, id)
      case None => Outcome(NotFound, store)
      case Some(k) =>
        var patched := Patch(store[k], body, id);
        if !io.writeOk then Outcome(ServerError, store)
        else Outcome(Updated(patched), store[k := patched])
  }

  /** `bookings.filter(b => b.id !== id)`. */
  function RemoveId(store: seq<Booking>, id: string): (r: seq<Booking>)
    ensures |r| <= |store|
    ensures forall b | b in r :: b in store && !HasId(b, id)
    ensures forall b | b in store && !HasId(b, id) :: b in r
    ensures |r| == |store| <==> forall k | 0 <= k < |store| :: !HasId(store[k], id)
  {
    if |store| == 0 then []
    else
      var rest := RemoveId(store[1..], id);
      assert forall b | b in store[1..] :: b in store;
      if HasId(store[0], id) then rest else [store[0]] + rest
  }

  /**
   DELETE `/api/bookings/:id`: every booking with that id is removed and the
   rest keep their order; if none had it, 404 and nothing is written.
   */
  function Delete(store: seq<Booking>, id: string, io: Io): (o: Outcome)
    ensures !io.readOk ==> o == Outcome(ServerError, store)
    ensures io.readOk && (forall k | 0 <= k < |store| :: !HasId(store[k], id)) ==> o == Outcome(NotFound, store)
    ensures o.response == Deleted ==> io.writeOk && o.store == RemoveId(store, id) && |o.store| < |store|
    ensures o.response != Deleted ==> o.store == store
    ensures io.readOk && io.writeOk && (exists k | 0 <= k < |store| :: HasId(store[k], id)) ==> o.response == Deleted
    ensures io.readOk && !io.writeOk && (exists k | 0 <= k < |store| :: HasId(store[k], id)) ==> o == Outcome(ServerError, store)
  {
    if !io.readOk then Outcome(ServerError, store)
    else
      var filtered := RemoveId(store, id);
      if |filtered| == |store| then Outcome(NotFound, store)
      else if !io.writeOk then Outcome(ServerError, store)
      else Outcome(Deleted, filtered)
  }

  /** Ids from different milliseconds differ: the digits after `BK` determine the clock reading. */
  lemma NewIdInjective(a: nat, b: nat)
    requires NewId(a) == NewId(b)
    ensures a == b
  {
    var sa := JsNumber.NatToString(a);
    var sb := JsNumber.NatToString(b);
    assert sa == NewId(a)[2..] && sb == NewId(b)[2..];
  }

  /** A created booking is listed afterwards, verbatim and last. */
  lemma CreateThenList(store: seq<Booking>, body: Booking, now: nat, isoNow: string)
    ensures var c := Create(store, body, now, isoNow, Io(true, true));
      var l := List(c.store, Io(true, true));
      && l.response.Listed?
      && |l.response.bookings| == |store| + 1
      && l.response.bookings[|store|] == c.response.booking
      && l.response.bookings[..|store|] == store
  {
  }

  /** The filter keeps the order of what it keeps: it distributes over concatenation. */
  lemma {:induction false} RemoveIdConcat(a: seq<Booking>, b: seq<Booking>, id: string)
    ensures RemoveId(a + b, id) == RemoveId(a, id) + RemoveId(b, id)
    decreases |a|
  {
    if |a| == 0 {
      assert a + b == b;
    } else {
      assert (a + b)[1..] == a[1..] + b;
      RemoveIdConcat(a[1..], b, id);
    }
  }

  /** The filter removes nothing when no booking has the id. */
  lemma {:induction false} RemoveIdAbsent(store: seq<Booking>, id: string)
    requires forall k | 0 <= k < |store| :: !HasId(store[k], id)
    ensures RemoveId(store, id) == store
    decreases |store|
  {
    if |store| > 0 {
      RemoveIdAbsent(store[1..], id);
      assert store == [store[0]] + store[1..];
    }
  }

  /**
   Deleting the id a create just assigned undoes the create, when no earlier
   booking had that id and the body did not supply its own.
   */
  lemma CreateThenDelete(store: seq<Booking>, body: Booking, now: nat, isoNow: string)
    requires "id" !in body
    requires forall k | 0 <= k < |store| :: !HasId(store[k], NewId(now))
    ensures var c := Create(store, body, now, isoNow, Io(true, true));
      var d := Delete(c.store, NewId(now), Io(true, true));
      d.response == Deleted && d.store == store
  {
    var c := Create(store, body, now, isoNow, Io(true, true));
    var b := c.response.booking;
    assert HasId(b, NewId(now));
    RemoveIdConcat(store, [b], NewId(now));
    RemoveIdAbsent(store, NewId(now));
    assert RemoveId([b], NewId(now)) == [];
    assert c.store[|store|] == b;
  }

  /** Setting the status through an update: the booking keeps its id and takes the new status, whatever it was. */
  lemma UpdateSetsStatus(store: seq<Booking>, id: string, status: string)
    requires exists k | 0 <= k < |store| :: HasId(store[k], id)
    ensures var u := Update(store, id, map["status" := status], Io(true, true));
      && u.response.Updated?
      && HasId(u.response.booking, id) && u.response.booking["status"] == status
      && |u.store| == |store|
      && exists k | 0 <= k < |store| :: u.store[k] == u.response.booking
  {
    var k := FindIndex(store, id).value;
    assert Update(store, id, map["status" := status], Io(true, true)).store[k]
      == Patch(store[k], map["status" := status], id);
  }

  /** A body that names another id cannot move a booking: the path id is forced back. */
  lemma UpdateKeepsPathId(store: seq<Booking>, id: string, body: Booking, io: Io)
    ensures var u := Update(store, id, body, io);
      u.response.Updated? ==> HasId(u.response.booking, id)
  {
  }

  /**
   Two bookings with the same id: an update reaches only the first, a delete
   removes both.
   */
  lemma DuplicateIds(store: seq<Booking>, id: string, body: Booking, i: nat, j: nat)
    requires i < j < |store| && HasId(store[i], id) && HasId(store[j], id)
    requires forall k | 0 <= k < i :: !HasId(store[k], id)
    ensures var u := Update(store, id, body, Io(true, true));
      u.response.Updated? && u.store[i] == Patch(store[i], body, id) && u.store[j] == store[j]
    ensures var d := Delete(store, id, Io(true, true));
      d.response == Deleted && store[i] !in d.store && store[j] !in d.store
  {
    assert FindIndex(store, id) == Some(i);
  }

  /**
   Two creates in the same millisecond, with bodies that carry no id, store
   two bookings with the same id.
   */
  lemma SameMillisecondCollides(store: seq<Booking>, body1: Booking, body2: Booking, now: nat, isoNow: string)
    requires "id" !in body1 && "id" !in body2
    ensures var c1 := Create(store, body1, now, isoNow, Io(true, true));
      var c2 := Create(c1.store, body2, now, isoNow, Io(true, true));
      && |c2.store| == |store| + 2
      && HasId(c2.store[|store|], NewId(now)) && HasId(c2.store[|store| + 1], NewId(now))
  {
  }

  /** A body may supply the id, the timestamp and the status; the server's values are then discarded. */
  lemma ClientFieldsWin(store: seq<Booking>, body: Booking, now: nat, isoNow: string)
    requires "id" in body && "status" in body && "timestamp" in body
    ensures var c := Create(store, body, now, isoNow, Io(true, true));
      c.response.booking == body
  {
  }
}
