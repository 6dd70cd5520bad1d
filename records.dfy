/**
  The two shapes a screening takes. A parser builds a Record with the keys
  title, date, time and day; the aggregator adds the cinema's display name,
  giving a Screening. Dates stay text: a parser may emit a date that is not a
  calendar date, and the filters drop such records later.
*/
module Records {

  datatype Record = Record(title: string, date: string, time: string, day: string)

  datatype Screening = Screening(title: string, date: string, time: string, day: string, cinema: string)

  /** `s["cinema"] = display_name`: the record with the cinema key added. */
  function Tag(r: Record, cinema: string): (s: Screening)
    ensures s.cinema == cinema && Untag(s) == r
  {
    Screening(r.title, r.date, r.time, r.day, cinema)
  }

  /** The record a screening was built from. */
  function Untag(s: Screening): Record
  {
    Record(s.title, s.date, s.time, s.day)
  }

  /** Tags every record of a source, keeping their order. */
  function TagAll(rs: seq<Record>, cinema: string): (ss: seq<Screening>)
    ensures |ss| == |rs|
    ensures forall i :: 0 <= i < |rs| ==> ss[i] == Tag(rs[i], cinema)
  {
    if rs == [] then [] else TagAll(rs[..|rs| - 1], cinema) + [Tag(rs[|rs| - 1], cinema)]
  }
}
