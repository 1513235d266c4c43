/** src/serializers/ActivitySerializer.ts: the five identity fields of a stored activity.
    What follows them (context and time) is an arbitrary text here; which texts `JSON.parse`
    accepts is a parameter. */
module ActivitySerializer {
  import opened Results
  import opened Text

  datatype Identity = Identity(
    id: string, actorId: string, verbId: string, objectId: string, targetId: Option<string>)

  function DumpTarget(target: Option<string>): string {
    if target.None? || target.value == "" then "null" else target.value
  }

  function Fields(a: Identity): seq<string> {
    [a.id, a.actorId, a.verbId, a.objectId, DumpTarget(a.targetId)]
  }

  method Dumps(a: Identity, tail: string) returns (text: string)
    ensures text == Join(Fields(a) + [tail], ",")
  {
    var parts := [a.id, a.actorId, a.verbId, a.objectId,
                  if a.targetId.Some? && a.targetId.value != "" then a.targetId.value else "null"];
    parts := parts + [tail];
    text := Join(parts, ",");
  }

  function Field(parts: seq<string>, i: nat): string {
    if i < |parts| then parts[i] else ""
  }

  type JsonParser = string -> bool

  /** The sixth part is taken for the context, up to its first comma. */
  predicate ContextLoads(part: string, parses: JsonParser) {
    part in ["", "NaN", "undefined", "null"] || parses(part)
  }

  /** The Activity constructor refuses an empty actor, verb or object, and gives an activity
      without id a fresh one. */
  function LoadText(text: string, freshId: string, parses: JsonParser): Result<Identity> {
    var parts := Split(text, ",");
    if !ContextLoads(Field(parts, 5), parses) then Err(SerializationError)
    else if Field(parts, 1) == "" || Field(parts, 2) == "" || Field(parts, 3) == "" then Err(ValueError)
    else
      var target := Field(parts, 4);
      Ok(Identity(if parts[0] == "" then freshId else parts[0], parts[1], parts[2], parts[3],
                  if target == "null" || target == "" then None else Some(target)))
  }

  predicate Plain(s: string) { s != "" && ',' !in s }

  predicate Fits(a: Identity) {
    Plain(a.id) && Plain(a.actorId) && Plain(a.verbId) && Plain(a.objectId) &&
    (a.targetId.Some? ==> Plain(a.targetId.value) && a.targetId.value != "null")
  }

  lemma {:induction false} SplitFields(fields: seq<string>, tail: string)
    requires forall i :: 0 <= i < |fields| ==> ',' !in fields[i]
    ensures Split(Join(fields + [tail], ","), ",") == fields + Split(tail, ",")
  {
    hide Split;
    var all := fields + [tail];
    if fields == [] {
      assert all == [tail];
    } else {
      assert all[1..] == fields[1..] + [tail];
      CleanOfChar(fields[0], ',');
      SplitHead(fields[0], ",", Join(all[1..], ","));
      SplitFields(fields[1..], tail);
    }
  }

  lemma RoundTrips(a: Identity, tail: string, freshId: string, parses: JsonParser)
    requires Plain(freshId)
    ensures LoadText(Join(Fields(a) + [tail], ","), freshId, parses) == Ok(a)
       <==> Fits(a) && ContextLoads(Split(tail, ",")[0], parses)
  {
    hide Split, Join, ContextLoads;
    var text := Join(Fields(a) + [tail], ",");
    if LoadText(text, freshId, parses) == Ok(a) {
      LoadedFits(text, freshId, parses, a);
    }
    if Fits(a) {
      SplitFields(Fields(a), tail);
      assert forall i :: 0 <= i < 5 ==> Split(text, ",")[i] == Fields(a)[i];
      assert Split(text, ",")[5] == Split(tail, ",")[0];
    }
  }

  /** The identity comes back exactly when every field is non-empty and comma-free, the
      target is not the text "null", and what follows up to its first comma is accepted as a
      context: a context text with a comma in it is cut, and usually refused. */
  lemma RoundTripIff(a: Identity, tail: string, freshId: string, parses: JsonParser)
    requires Plain(freshId)
    ensures var c := Split(tail, ",")[0];
      LoadText(Join(Fields(a) + [tail], ","), freshId, parses) == Ok(a)
      <==> Fits(a) && (c == "" || c == "NaN" || c == "undefined" || c == "null" || parses(c))
  {
    ContextIff(Split(tail, ",")[0], parses);
    hide Split, Join, Fields, Fits, LoadText, ContextLoads;
    RoundTrips(a, tail, freshId, parses);
  }

  lemma ContextIff(c: string, parses: JsonParser)
    ensures ContextLoads(c, parses) <==> c == "" || c == "NaN" || c == "undefined" || c == "null" || parses(c)
  {
  }

  /** Whatever is loaded at all fits. */
  lemma LoadedFits(text: string, freshId: string, parses: JsonParser, a: Identity)
    requires Plain(freshId) && LoadText(text, freshId, parses) == Ok(a)
    ensures Fits(a)
  {
    hide Split;
    SplitParts(text, ',');
    var parts := Split(text, ",");
    assert forall i :: ',' !in Field(parts, i);
  }
}
