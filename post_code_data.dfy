/**
 * The area panel of src/components/PostCodeData.tsx: the five pieces of data
 * fetched for the current postcode, the rule that turns a response into a
 * value, and the police neighbourhood card with its social-media handle
 * extractor and its tweets. Requests are recorded instead of sent, and a
 * response is applied by its own method, with whatever status it carries.
 */
module PostCodeData {
  import opened Common
  import opened Strings
  import BikeList

  /** `PoliceInfo.getHandle`: the last "/"-segment of a url, or the one before a trailing slash. */
  function GetHandle(url: Option<string>): (h: Option<string>)
    ensures !Truthy(url) ==> h == None
    ensures h.Some? ==> h.value != "" && '/' !in h.value
  {
    if !Truthy(url) then None
    else
      var parts := Split(url.value, '/');
      SplitPartsAvoidSeparator(url.value, '/');
      var last := parts[|parts| - 1];
      if last != "" then Some(last)
      else if |parts| >= 2 && parts[|parts| - 2] != "" then Some(parts[|parts| - 2])
      else None
  }

  /** A url without any slash is its own handle. */
  lemma HandleOfBareName(name: string)
    requires name != "" && '/' !in name
    ensures GetHandle(Some(name)) == Some(name)
  {
    SplitWithoutSeparator(name, '/');
  }

  /** The handle is what follows the last slash. */
  lemma HandleAfterLastSlash(prefix: string, name: string)
    requires name != "" && '/' !in name
    ensures GetHandle(Some(prefix + "/" + name)) == Some(name)
  {
    SplitAppendPart(prefix, name, '/');
  }

  /** With a trailing slash, the handle is the segment before it. */
  lemma HandleBeforeTrailingSlash(prefix: string, name: string)
    requires name != "" && '/' !in name
    ensures GetHandle(Some(prefix + "/" + name + "/")) == Some(name)
    ensures GetHandle(Some(name + "/")) == Some(name)
  {
    SplitAppendPart(name, "", '/');
    SplitWithoutSeparator(name, '/');
    assert name + "/" == name + ['/'] + "";
    SplitAppendPart(prefix, name, '/');
    SplitAppendPart(prefix + "/" + name, "", '/');
    assert prefix + "/" + name + "/" == prefix + "/" + name + "/" + "";
  }

  /** Two empty segments at the end give no handle, as for "/" or "a//". */
  lemma NoHandleAfterDoubleSlash(prefix: string)
    ensures GetHandle(Some(prefix + "//")) == None
    ensures GetHandle(Some("/")) == None
  {
    var once := prefix + ['/'] + "";
    SplitAppendPart(prefix, "", '/');
    SplitAppendPart(once, "", '/');
    assert prefix + "//" == once + ['/'] + "";
    SplitAppendPart("", "", '/');
    assert "/" == "" + ['/'] + "";
  }

  /** A place near the postcode, by its title. */
  type Place = string

  datatype Address = Address(zone: string, district: string)

  datatype Neighbourhood = Neighbourhood(name: string, twitter: Option<string>, facebook: Option<string>)

  /** A request the component sends for a postcode. */
  datatype Request = NearbyRequest(p: string) | LocalDataRequest(p: string) | CrimesRequest(p: string) | BikesRequest(p: string)

  class PostCodeData {
    /** The `postcode` prop. */
    var postcode: Option<string>
    var nearby: Option<seq<Place>>
    var neighbourhood: Option<Neighbourhood>
    var address: Option<Address>
    var crimes: Option<seq<string>>
    var bikes: Option<seq<BikeList.Bike>>
    /** Every request sent, in order. */
    var requests: seq<Request>

    /** The constructor: no data yet; a truthy postcode starts the four fetches. */
    constructor(postcode: Option<string>)
      ensures this.postcode == postcode
      ensures nearby == None && neighbourhood == None && address == None && crimes == None && bikes == None
      ensures requests == (if Truthy(postcode) then
        var p := postcode.value; [NearbyRequest(p), LocalDataRequest(p), BikesRequest(p), CrimesRequest(p)] else [])
    {
      this.postcode := postcode;
      nearby, neighbourhood, address, crimes, bikes := None, None, None, None, None;
      requests := [];
      if Truthy(postcode) {
        var p := postcode.value;
        requests := [NearbyRequest(p), LocalDataRequest(p), BikesRequest(p), CrimesRequest(p)];
      }
    }

    /**
     * `componentWillReceiveProps`: a null postcode clears all five fields; a
     * different postcode starts the four fetches; the same one does nothing.
     */
    method ReceiveProps(next: Option<string>)
      modifies this
      ensures postcode == next
      ensures next.None? ==> nearby == None && neighbourhood == None && address == None && crimes == None && bikes == None
      ensures next.None? ==> requests == old(requests)
      ensures next.Some? ==> nearby == old(nearby) && neighbourhood == old(neighbourhood) && address == old(address)
      ensures next.Some? ==> crimes == old(crimes) && bikes == old(bikes)
      ensures next.Some? && next == old(postcode) ==> requests == old(requests)
      ensures next.Some? && next != old(postcode) ==>
        requests == old(requests) + [NearbyRequest(next.value), LocalDataRequest(next.value),
                                     CrimesRequest(next.value), BikesRequest(next.value)]
    {
      if next.None? {
        nearby, neighbourhood, address, crimes, bikes := None, None, None, None, None;
      } else if postcode != next {
        var p := next.value;
        requests := requests + [NearbyRequest(p), LocalDataRequest(p), CrimesRequest(p), BikesRequest(p)];
      }
      postcode := next;
    }

    /** `fetchCrimes` once its response is in: a failed request gives an empty list. */
    method ApplyCrimes(response: Response<seq<string>>)
      modifies this
      ensures crimes == Some(ListOrEmpty(response))
      ensures postcode == old(postcode) && nearby == old(nearby) && neighbourhood == old(neighbourhood)
      ensures address == old(address) && bikes == old(bikes) && requests == old(requests)
    {
      crimes := Some(ListOrEmpty(response));
    }

    /** `fetchBikes` once its response is in: a failed request gives an empty list. */
    method ApplyBikes(response: Response<seq<BikeList.Bike>>)
      modifies this
      ensures bikes == Some(ListOrEmpty(response))
      ensures postcode == old(postcode) && nearby == old(nearby) && neighbourhood == old(neighbourhood)
      ensures address == old(address) && crimes == old(crimes) && requests == old(requests)
    {
      bikes := Some(ListOrEmpty(response));
    }

    /** `fetchNearbyLocations` once its response is in: a failed request gives an empty list. */
    method ApplyNearby(response: Response<seq<Place>>)
      modifies this
      ensures nearby == Some(ListOrEmpty(response))
      ensures postcode == old(postcode) && crimes == old(crimes) && neighbourhood == old(neighbourhood)
      ensures address == old(address) && bikes == old(bikes) && requests == old(requests)
    {
      nearby := Some(ListOrEmpty(response));
    }

    /** `fetchLocalDataForPostcode` once both responses are in: a failed request gives null. */
    method ApplyLocalData(addressResponse: Response<Address>, neighbourhoodResponse: Response<Neighbourhood>)
      modifies this
      ensures address == ObjectOrNull(addressResponse) && neighbourhood == ObjectOrNull(neighbourhoodResponse)
      ensures postcode == old(postcode) && crimes == old(crimes) && nearby == old(nearby)
      ensures bikes == old(bikes) && requests == old(requests)
    {
      address := ObjectOrNull(addressResponse);
      neighbourhood := ObjectOrNull(neighbourhoodResponse);
    }
  }

  /** The card of a police neighbourhood. */
  class PoliceInfo {
    /** The `twitter` field of the `neighbourhood` prop. */
    var twitter: Option<string>
    var tweets: seq<string>
    /** The handle of every tweet request sent, in order. */
    var requests: seq<string>

    /** The constructor: tweets are requested when the url yields a handle. */
    constructor(twitter: Option<string>)
      ensures this.twitter == twitter && tweets == []
      ensures requests == (if GetHandle(twitter).Some? then [GetHandle(twitter).value] else [])
    {
      this.twitter := twitter;
      tweets := [];
      requests := [];
      var handle := GetHandle(twitter);
      if handle.Some? {
        requests := [handle.value];
      }
    }

    /**
     * `componentWillReceiveProps`: an unchanged url does nothing; a change to
     * null clears the tweets; any other change requests the tweets of its handle, if it has one.
     */
    method ReceiveProps(next: Option<string>)
      modifies this
      ensures twitter == next
      ensures next == old(twitter) ==> tweets == old(tweets) && requests == old(requests)
      ensures next != old(twitter) && next.None? ==> tweets == [] && requests == old(requests)
      ensures next != old(twitter) && next.Some? ==>
        tweets == old(tweets) && requests == old(requests) + (if GetHandle(next).Some? then [GetHandle(next).value] else [])
    {
      if next != twitter {
        if next.None? {
          tweets := [];
        } else {
          var handle := GetHandle(next);
          if handle.Some? {
            requests := requests + [handle.value];
          }
        }
      }
      twitter := next;
    }

    /** `fetchData` once its response is in: a failed request gives no tweets. */
    method ApplyTweets(response: Response<seq<string>>)
      modifies this
      ensures tweets == ListOrEmpty(response)
      ensures twitter == old(twitter) && requests == old(requests)
    {
      tweets := ListOrEmpty(response);
    }
  }
}
