/**
 * Values shared by every component: a nullable value and an HTTP response
 * as the components see it (a status code and an already-decoded body).
 */
module Common {

  /** `null` / absent versus a present value. */
  datatype Option<T> = None | Some(value: T)

  /** A value of type `string | null | undefined`, as the region of a query. */
  datatype RegionValue = Null | Undefined | Name(name: string)

  /** JavaScript truthiness of a `string | null | undefined`. */
  predicate RegionTruthy(r: RegionValue)
  {
    r.Name? && r.name != ""
  }

  /** A fetched response: the status code and the decoded JSON body. */
  datatype Response<T> = Response(status: int, body: T)

  /** JavaScript truthiness of a nullable string: null and "" are falsy. */
  predicate Truthy(s: Option<string>)
  {
    s.Some? && s.value != ""
  }

  /** `response.status == 200 ? await response.json() : []` */
  function ListOrEmpty<T>(r: Response<seq<T>>): (xs: seq<T>)
    ensures r.status == 200 ==> xs == r.body
    ensures r.status != 200 ==> xs == []
  {
    if r.status == 200 then r.body else []
  }

  /** `response.status == 200 ? await response.json() : null` */
  function ObjectOrNull<T>(r: Response<T>): (o: Option<T>)
    ensures o.Some? <==> r.status == 200
    ensures o.Some? ==> o.value == r.body
  {
    if r.status == 200 then Some(r.body) else None
  }
}
