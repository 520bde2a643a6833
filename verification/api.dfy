/** The shapes the React client exchanges with the service
    (src/frontend-react/src/api.ts). Only the types are modelled; the axios calls are not. */
module Api {

  /** A delivery point: coordinates in degrees and a caller-supplied address. */
  datatype Stop = Stop(lat: real, lng: real, address: string)

  /** The addresses of `stops`, in order. */
  function Addresses(stops: seq<Stop>): (addrs: seq<string>)
  {
    seq(|stops|, i requires 0 <= i < |stops| => stops[i].address)
  }
}
