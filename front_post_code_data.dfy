/**
 * The earlier area panel of front/components/PostCodeData.tsx. It fetches
 * only the nearby places and the local data, reads every response body
 * whatever its status, and treats a body carrying a truthy `message` field
 * as an error, stored as null. Its `getHandle` is the same code as the later
 * panel's and is modelled by `PostCodeData.GetHandle`.
 */
module FrontPostCodeData {
  import opened Common
  import PostCodeData

  type Address = PostCodeData.Address
  type Neighbourhood = PostCodeData.Neighbourhood
  type Place = PostCodeData.Place

  /** A decoded response body: the `message` field an error body carries, and the object itself. */
  datatype Reply<T> = Reply(message: Option<string>, value: T)

  /** `reply.message ? null : reply`. */
  function NullIfMessage<T>(reply: Reply<T>): (o: Option<T>)
    ensures o.None? <==> Truthy(reply.message)
    ensures o.Some? ==> o.value == reply.value
  {
    if Truthy(reply.message) then None else Some(reply.value)
  }

  /** An empty `message` is falsy, so such a body is still stored. */
  lemma EmptyMessageIsKept<T>(value: T)
    ensures NullIfMessage(Reply(Some(""), value)) == Some(value)
    ensures NullIfMessage(Reply(None, value)) == Some(value)
  {
  }

  /** The cards `render` shows: each is absent, or present with its props. */
  datatype Cards = Cards(localInfo: Option<(Address, seq<Place>)>, policeInfo: Option<Neighbourhood>)

  /** A request the panel sends for a postcode. */
  datatype Request = NearbyRequest(p: string) | LocalDataRequest(p: string)

  class FrontPostCodeData {
    /** The `postcode` prop. */
    var postcode: Option<string>
    var nearby: seq<Place>
    var neighbourhood: Option<Neighbourhood>
    var address: Option<Address>
    /** Every request sent, in order. */
    var requests: seq<Request>

    /** The constructor: no data yet; a truthy postcode starts both fetches. */
    constructor(postcode: Option<string>)
      ensures this.postcode == postcode && nearby == [] && neighbourhood == None && address == None
      ensures requests == (if Truthy(postcode) then [NearbyRequest(postcode.value), LocalDataRequest(postcode.value)] else [])
      ensures Render() == Cards(None, None)
    {
      this.postcode := postcode;
      nearby := [];
      neighbourhood := None;
      address := None;
      requests := [];
      if Truthy(postcode) {
        requests := [NearbyRequest(postcode.value), LocalDataRequest(postcode.value)];
      }
    }

    /**
     * `componentWillReceiveProps`: an unchanged postcode does nothing; a change
     * to null clears the neighbourhood and the address but keeps the nearby
     * places; any other change starts both fetches.
     */
    method ReceiveProps(next: Option<string>)
      modifies this
      ensures postcode == next && nearby == old(nearby)
      ensures next == old(postcode) ==>
        neighbourhood == old(neighbourhood) && address == old(address) && requests == old(requests)
      ensures next != old(postcode) && next.None? ==>
        neighbourhood == None && address == None && requests == old(requests)
      ensures next != old(postcode) && next.Some? ==>
        && neighbourhood == old(neighbourhood) && address == old(address)
        && requests == old(requests) + [NearbyRequest(next.value), LocalDataRequest(next.value)]
      ensures next != old(postcode) && next.None? ==> Render() == Cards(None, None)
    {
      if postcode != next {
        if next.None? {
          neighbourhood := None;
          address := None;
        } else {
          requests := requests + [NearbyRequest(next.value), LocalDataRequest(next.value)];
        }
      }
      postcode := next;
    }

    /** `fetchNearbyLocations` once its response is in; the status is not looked at. */
    method ApplyNearby(places: seq<Place>)
      modifies this
      ensures nearby == places
      ensures postcode == old(postcode) && neighbourhood == old(neighbourhood) && address == old(address)
      ensures requests == old(requests)
    {
      nearby := places;
    }

    /** `getLocalDataForPostcode` once both bodies are in: a body with a message is stored as null. */
    method ApplyLocalData(addressReply: Reply<Address>, neighbourhoodReply: Reply<Neighbourhood>)
      modifies this
      ensures address == NullIfMessage(addressReply) && neighbourhood == NullIfMessage(neighbourhoodReply)
      ensures postcode == old(postcode) && nearby == old(nearby) && requests == old(requests)
      ensures Render().localInfo.Some? <==> !Truthy(addressReply.message)
      ensures Render().policeInfo.Some? <==> !Truthy(neighbourhoodReply.message)
    {
      address := NullIfMessage(addressReply);
      neighbourhood := NullIfMessage(neighbourhoodReply);
    }

    /**
     * `render`: the local information card, given the address and the nearby
     * places, exactly when there is an address; the police card, given the
     * neighbourhood, exactly when there is one.
     */
    function Render(): (shown: Cards)
      reads this
      ensures shown.localInfo.Some? <==> address.Some?
      ensures shown.localInfo.Some? ==> shown.localInfo.value == (address.value, nearby)
      ensures shown.policeInfo.Some? <==> neighbourhood.Some?
      ensures shown.policeInfo.Some? ==> shown.policeInfo.value == neighbourhood.value
    {
      Cards(if address.Some? then Some((address.value, nearby)) else None, neighbourhood)
    }
  }

  /** The earlier police card: the same as the later one, except that tweets are stored whatever the status. */
  class FrontPoliceInfo {
    /** The `twitter` field of the `neighbourhood` prop. */
    var twitter: Option<string>
    var tweets: seq<string>
    /** The handle of every tweet request sent, in order. */
    var requests: seq<string>

    /** The constructor: tweets are requested when the url yields a handle. */
    constructor(twitter: Option<string>)
      ensures this.twitter == twitter && tweets == []
      ensures requests == (if PostCodeData.GetHandle(twitter).Some? then [PostCodeData.GetHandle(twitter).value] else [])
    {
      this.twitter := twitter;
      tweets := [];
      requests := [];
      var handle := PostCodeData.GetHandle(twitter);
      if handle.Some? {
        requests := [handle.value];
      }
    }

    /** `componentWillReceiveProps`, as in the later card. */
    method ReceiveProps(next: Option<string>)
      modifies this
      ensures twitter == next
      ensures next == old(twitter) ==> tweets == old(tweets) && requests == old(requests)
      ensures next != old(twitter) && next.None? ==> tweets == [] && requests == old(requests)
      ensures next != old(twitter) && next.Some? ==>
        && tweets == old(tweets)
        && requests == old(requests) + (if PostCodeData.GetHandle(next).Some? then [PostCodeData.GetHandle(next).value] else [])
    {
      if next != twitter {
        if next.None? {
          tweets := [];
        } else {
          var handle := PostCodeData.GetHandle(next);
          if handle.Some? {
            requests := requests + [handle.value];
          }
        }
      }
      twitter := next;
    }

    /** `fetchData` once its response is in. */
    method ApplyTweets(body: seq<string>)
      modifies this
      ensures tweets == body && twitter == old(twitter) && requests == old(requests)
    {
      tweets := body;
    }
  }
}
