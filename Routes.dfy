/** The values `build_section` works on (newsletter.py:59-72). */
module Routes {

  /** One entry of routes.json: a titled group of origin and destination
      airport codes watched for one "YYYY-MM" month. */
  datatype Watch = Watch(title: string, month: string, origins: seq<string>, destinations: seq<string>)

  /** The tuple `(origin, dest, best, link)` that `build_section` appends:
      the cheapest price found for the route (in cents) and its deep link. */
  datatype Row = Row(origin: string, dest: string, price: int, link: string)
}
