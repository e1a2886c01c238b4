/** JSON values, used for request bodies' field errors and for response bodies. */
module Json {

  /** A JSON value. Object members keep the order in which the source writes them. */
  datatype Json =
    | JNull
    | JBool(b: bool)
    | JNum(n: int)
    | JStr(s: string)
    | JArr(items: seq<Json>)
    | JObj(members: seq<(string, Json)>)

  /** An HTTP response: the status code and the JSON body sent with it. */
  datatype Response = Response(status: nat, body: Json)

  /** The value of the first member named `key` of an object, if there is one. */
  function Member(j: Json, key: string): (r: Json)
  {
    if j.JObj? then Lookup(j.members, key) else JNull
  }

  function Lookup(members: seq<(string, Json)>, key: string): (r: Json)
    ensures r != JNull ==> exists i :: 0 <= i < |members| && members[i].0 == key && members[i].1 == r
  {
    if |members| == 0 then JNull
    else if members[0].0 == key then members[0].1
    else Lookup(members[1..], key)
  }

  /** The member names of an object, in order. */
  function Keys(j: Json): (r: seq<string>)
  {
    if j.JObj? then seq(|j.members|, i requires 0 <= i < |j.members| => j.members[i].0) else []
  }

  /** The value of an object is that of the first member with the key. */
  lemma {:induction false} LookupFirst(members: seq<(string, Json)>, key: string, i: nat)
    requires i < |members| && members[i].0 == key
    requires forall k :: 0 <= k < i ==> members[k].0 != key
    ensures Lookup(members, key) == members[i].1
  {
    if i > 0 {
      LookupFirst(members[1..], key, i - 1);
    }
  }
}
