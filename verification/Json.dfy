/** JSON documents as `json.loads` returns them. */
module Json {
  import opened Basics

  datatype Json =
    | Null
    | Bool(b: bool)
    | Num(n: int)
    | Str(s: string)
    | Arr(items: seq<Json>)
    | Obj(fields: map<string, Json>)

  function StrArr(xs: seq<string>): (j: Json) {
    Arr(seq(|xs|, i requires 0 <= i < |xs| => Str(xs[i])))
  }

  predicate IsStrArr(j: Json) {
    j.Arr? && forall i :: 0 <= i < |j.items| ==> j.items[i].Str?
  }

  function Strings(j: Json): seq<string>
    requires IsStrArr(j)
  {
    seq(|j.items|, i requires 0 <= i < |j.items| => j.items[i].s)
  }

  lemma StringsOfStrArr(xs: seq<string>)
    ensures IsStrArr(StrArr(xs)) && Strings(StrArr(xs)) == xs
  {
  }

  function OptStr(o: Option<string>): Json {
    if o.None? then Null else Str(o.value)
  }

  predicate IsOptStr(j: Json) {
    j.Null? || j.Str?
  }

  function AsOptStr(j: Json): Option<string>
    requires IsOptStr(j)
  {
    if j.Null? then None else Some(j.s)
  }

  /** `d.get(key, default)` */
  function Get(d: map<string, Json>, key: string, default: Json): Json {
    if key in d then d[key] else default
  }
}
