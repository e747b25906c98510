/**
 * The map of locations (src/app/Components/Map.tsx): marker sizing from the
 * vote count, the geometry of the custom marker icon, the category filter
 * applied to the location query, and the vote action, a read-then-write
 * against the location store followed by an update of the local list.
 */
module MapView {
  import opened Wrappers
  import Text

  /** A location's identifier (a UUID in the store). */
  type LocationId = string

  datatype Location = Location(
    id: LocationId,
    latitude: real,
    longitude: real,
    title: string,
    description: string,
    category: string,
    photo: string,
    votes: int)

  // ------------------------------------------------------------ marker icon

  const BaseSize: real := 25.0
  const MaxSize: real := 50.0
  const ScaleFactor: real := 0.5
  const HeightRatio: real := 1.64

  /** `Math.min(baseSize + votes * scaleFactor, maxSize)`. */
  function IconWidth(votes: int): (w: real)
    ensures w <= MaxSize && w <= BaseSize + votes as real * ScaleFactor
    ensures w == MaxSize || w == BaseSize + votes as real * ScaleFactor
    ensures votes >= 0 ==> BaseSize <= w
    ensures votes >= 50 ==> w == MaxSize
    ensures votes < 50 ==> w < MaxSize
  {
    var size := BaseSize + votes as real * ScaleFactor;
    if size < MaxSize then size else MaxSize
  }

  /** More votes never give a smaller marker. */
  lemma IconWidthMonotone(a: int, b: int)
    requires a <= b
    ensures IconWidth(a) <= IconWidth(b)
  {
  }

  /** `getIconSize`: the marker's width and height in pixels. */
  function IconSize(votes: int): (size: (real, real))
    ensures size.0 == IconWidth(votes)
    ensures size.1 == HeightRatio * size.0
    ensures votes >= 0 ==> BaseSize <= size.0 && HeightRatio * BaseSize <= size.1
    ensures size.1 <= HeightRatio * MaxSize
  {
    var w := IconWidth(votes);
    (w, w * HeightRatio)
  }

  datatype Icon = Icon(
    caption: string,
    iconSize: (real, real),
    iconAnchor: (real, real),
    popupAnchor: (real, real))

  /** `createCustomIcon`: the label and the geometry handed to the marker. */
  function CustomIcon(votes: int, title: string): (icon: Icon)
    ensures icon.caption == Text.Capitalize(title)
    ensures icon.iconSize == IconSize(votes)
    // the icon hangs from the middle of its bottom edge
    ensures icon.iconAnchor.0 * 2.0 == icon.iconSize.0 && icon.iconAnchor.1 == icon.iconSize.1
    // the popup opens 7 pixels below the top of the icon
    ensures icon.popupAnchor.0 == 0.0 && icon.popupAnchor.1 + icon.iconAnchor.1 == 7.0
  {
    var (width, height) := IconSize(votes);
    Icon(Text.Capitalize(title), (width, height), (width / 2.0, height), (0.0, -height + 7.0))
  }

  // -------------------------------------------------------- category filter

  const DefaultCategory := "default"

  /** `searchParams.get("category") || "default"`. */
  function SelectedCategory(param: Option<string>): (c: string)
    ensures c != ""
    ensures Truthy(param) ==> c == param.value
    ensures !Truthy(param) ==> c == DefaultCategory
  {
    OrElse(param, DefaultCategory)
  }

  /** A row the query returns for the selected category. */
  predicate Shown(l: Location, selected: string) {
    selected == DefaultCategory || l.category == selected
  }

  /** The location query: every row for "default", else only rows of that category. */
  function CategoryFilter(rows: seq<Location>, selected: string): (r: seq<Location>)
    ensures |r| <= |rows|
    ensures selected == DefaultCategory ==> r == rows
    ensures forall l :: l in r <==> l in rows && Shown(l, selected)
  {
    if rows == [] then []
    else if Shown(rows[0], selected) then [rows[0]] + CategoryFilter(rows[1..], selected)
    else CategoryFilter(rows[1..], selected)
  }

  // ------------------------------------------------------------------- votes

  /** Votes as the store keeps them; a null column is None. */
  type Store = map<LocationId, Option<int>>

  /** Which step of the read-then-write, if any, the store fails. */
  datatype StoreFault = NoFault | ReadFault | WriteFault

  datatype VoteError =
    | RowNotFound   // `.single()` on no row
    | ReadFailed
    | WriteFailed

  datatype VoteResult = Voted(newVotes: int) | Failed(error: VoteError)

  /** `currentData?.votes ?? 0`. */
  function VotesRead(store: Store, id: LocationId): (v: int)
    requires id in store
    ensures store[id].Some? ==> v == store[id].value
    ensures store[id].None? ==> v == 0
  {
    match store[id]
    case Some(n) => n
    case None => 0
  }

  /** The local list after a vote: only matching entries change, and only their votes. */
  function WithVotes(locs: seq<Location>, id: LocationId, v: int): (r: seq<Location>)
    ensures |r| == |locs|
    ensures forall i :: 0 <= i < |locs| ==> r[i].(votes := locs[i].votes) == locs[i]
    ensures forall i :: 0 <= i < |locs| && locs[i].id == id ==> r[i].votes == v
    ensures forall i :: 0 <= i < |locs| && locs[i].id != id ==> r[i] == locs[i]
  {
    if locs == [] then []
    else
      var head := if locs[0].id == id then locs[0].(votes := v) else locs[0];
      [head] + WithVotes(locs[1..], id, v)
  }

  /** The state of one map view. */
  class MapState {
    var locations: seq<Location>
    var selectedVotes: int
    var loading: bool
    var error: Option<string>

    constructor ()
      ensures locations == [] && selectedVotes == 0 && loading && error == None
    {
      locations := [];
      selectedVotes := 0;
      loading := true;
      error := None;
    }

    /**
     * `fetchData`: query the table for the selected category; `failure` is
     * the query's error message when it fails.
     */
    method FetchData(selected: string, table: seq<Location>, failure: Option<string>)
      modifies this
      ensures !loading && selectedVotes == old(selectedVotes)
      ensures failure.None? ==> locations == CategoryFilter(table, selected) && error == old(error)
      ensures failure.Some? ==>
        locations == old(locations) && error == Some("Failed to fetch locations: " + failure.value)
    {
      loading := true;
      if failure.Some? {
        error := Some("Failed to fetch locations: " + failure.value);
      } else {
        locations := CategoryFilter(table, selected);
      }
      loading := false;
    }

    /**
     * `vote`: read the stored count, write it back plus one and, when the
     * write succeeds, show the new count locally. Returns the store after
     * the call.
     */
    method Vote(placeId: LocationId, store: Store, fault: StoreFault)
      returns (result: VoteResult, newStore: Store)
      modifies this
      ensures loading == old(loading) && error == old(error)
      // a read error: nothing is written and nothing local changes
      ensures fault == ReadFault ==> result == Failed(ReadFailed)
      ensures fault != ReadFault && placeId !in store ==> result == Failed(RowNotFound)
      ensures fault == WriteFault && placeId in store ==> result == Failed(WriteFailed)
      ensures result.Failed? ==>
        newStore == store && locations == old(locations) && selectedVotes == old(selectedVotes)
      // success: exactly one counter changes, to the value read plus one
      ensures fault == NoFault && placeId in store ==> result == Voted(VotesRead(store, placeId) + 1)
      ensures result.Voted? ==>
        && newStore == store[placeId := Some(result.newVotes)]
        && locations == WithVotes(old(locations), placeId, result.newVotes)
        && selectedVotes == result.newVotes
    {
      if fault == ReadFault {
        return Failed(ReadFailed), store;
      }
      if placeId !in store {
        return Failed(RowNotFound), store;
      }
      var currentVotes := VotesRead(store, placeId);
      if fault == WriteFault {
        return Failed(WriteFailed), store;
      }
      newStore := store[placeId := Some(currentVotes + 1)];
      locations := WithVotes(locations, placeId, currentVotes + 1);
      selectedVotes := currentVotes + 1;
      result := Voted(currentVotes + 1);
    }
  }

  /** Only the voted counter changes in the store, and it goes up by exactly one. */
  lemma VoteTouchesOneCounter(store: Store, id: LocationId, other: LocationId)
    requires id in store && other != id
    ensures var s := store[id := Some(VotesRead(store, id) + 1)];
      && s.Keys == store.Keys
      && (other in store ==> s[other] == store[other])
      && VotesRead(s, id) == VotesRead(store, id) + 1
  {
  }

  /** Voting twice with the same value changes nothing further. */
  lemma WithVotesIdempotent(locs: seq<Location>, id: LocationId, v: int)
    ensures WithVotes(WithVotes(locs, id, v), id, v) == WithVotes(locs, id, v)
  {
    var once := WithVotes(locs, id, v);
    var twice := WithVotes(once, id, v);
    assert |twice| == |once|;
    forall i | 0 <= i < |once| ensures twice[i] == once[i] {
      if locs[i].id == id {
        assert once[i] == locs[i].(votes := v);
      }
    }
  }
}
