/**
 * What the evaluation of an EventSource puts into its report: the references of the matching resources and the text of
 * the collected ones, every document followed by "---".
 */
module CollectedResources {
  import opened Prelude
  import opened Text
  import EventReports

  const SEPARATOR := "---"

  function Marshalled(docs: seq<string>): string {
    if docs == [] then "" else docs[0] + SEPARATOR + Marshalled(docs[1..])
  }

  lemma {:induction false} MarshalledAppend(docs: seq<string>, doc: string)
    ensures Marshalled(docs + [doc]) == Marshalled(docs) + doc + SEPARATOR
  {
    if docs != [] {
      assert (docs + [doc])[1..] == docs[1..] + [doc];
      MarshalledAppend(docs[1..], doc);
    }
  }

  /** A resource as fetched; json is what MarshalJSON gives for it, None for an error. */
  datatype Resource = Resource(ref: Ref, json: Option<string>)

  predicate CanMarshal(resources: seq<Resource>) {
    forall i | 0 <= i < |resources| :: resources[i].json.Some?
  }

  function Docs(resources: seq<Resource>): seq<string>
    requires CanMarshal(resources)
  {
    seq(|resources|, i requires 0 <= i < |resources| => resources[i].json.value)
  }

  /** marshalSliceOfUnstructured */
  method MarshalSlice(resources: seq<Resource>) returns (text: Option<string>)
    ensures text.Some? <==> CanMarshal(resources)
    ensures text.Some? ==> text.value == Marshalled(Docs(resources))
  {
    var result := "";
    for i := 0 to |resources|
      invariant CanMarshal(resources[..i])
      invariant result == Marshalled(Docs(resources[..i]))
    {
      if resources[i].json.None? {
        return None;
      }
      MarshalledAppend(Docs(resources[..i]), resources[i].json.value);
      assert Docs(resources[..i + 1]) == Docs(resources[..i]) + [resources[i].json.value];
      result := result + resources[i].json.value + SEPARATOR;
    }
    assert resources[..|resources|] == resources;
    return Some(result);
  }

  /** No separator starts inside the document, not even one that its own last characters begin. */
  ghost predicate Plain(doc: string) {
    !Contains(doc + "--", SEPARATOR)
  }

  lemma OccursPadded(doc: string, i: nat)
    requires OccursAt(doc, SEPARATOR, i)
    ensures OccursAt(doc + "--", SEPARATOR, i)
  {
    assert (doc + "--")[i..i + 3] == doc[i..i + 3];
  }

  lemma DashOccursPadded(doc: string)
    requires doc != "" && doc[|doc| - 1] == '-'
    ensures OccursAt(doc + "--", SEPARATOR, |doc| - 1)
  {
    assert (doc + "--")[|doc| - 1..|doc| + 2] == SEPARATOR;
  }

  lemma PaddedOccurs(doc: string, i: nat)
    requires OccursAt(doc + "--", SEPARATOR, i)
    ensures OccursAt(doc, SEPARATOR, i) || (doc != "" && doc[|doc| - 1] == '-')
  {
    var padded := doc + "--";
    if i + 3 <= |doc| {
      assert doc[i..i + 3] == padded[i..i + 3];
    } else {
      assert doc[|doc| - 1] == padded[i..i + 3][|doc| - 1 - i];
    }
  }

  /** A document is plain exactly when it does not contain the separator and does not end with a dash. */
  lemma PlainExactly(doc: string)
    ensures Plain(doc) <==> !Contains(doc, SEPARATOR) && (doc == "" || doc[|doc| - 1] != '-')
  {
    if i: nat :| OccursAt(doc + "--", SEPARATOR, i) {
      PaddedOccurs(doc, i);
    }
    if i: nat :| OccursAt(doc, SEPARATOR, i) {
      OccursPadded(doc, i);
    }
    if doc != "" && doc[|doc| - 1] == '-' {
      DashOccursPadded(doc);
    }
  }

  lemma OccursInDoc(doc: string, rest: string, j: nat)
    requires j < |doc|
    ensures OccursAt(doc + SEPARATOR + rest, SEPARATOR, j) <==> OccursAt(doc + "--", SEPARATOR, j)
  {
    assert (doc + SEPARATOR + rest)[j..j + 3] == (doc + "--")[j..j + 3];
  }

  lemma PlainDocIsCut(doc: string, rest: string)
    requires Plain(doc)
    ensures Split(doc + SEPARATOR + rest, SEPARATOR) == [doc] + Split(rest, SEPARATOR)
  {
    forall j: nat | j < |doc| ensures !OccursAt(doc + SEPARATOR + rest, SEPARATOR, j) {
      OccursInDoc(doc, rest, j);
    }
    SplitFirst(doc, SEPARATOR, rest);
  }

  lemma OtherDocIsNot(doc: string, rest: string)
    requires !Plain(doc)
    ensures Split(doc + SEPARATOR + rest, SEPARATOR)[0] != doc
  {
    var i: nat :| OccursAt(doc + "--", SEPARATOR, i);
    OccursInDoc(doc, rest, i);
    assert |Split(doc + SEPARATOR + rest, SEPARATOR)[0]| <= i < |doc|;
  }

  /**
   * Splitting the text on the separator gives back the documents, and one empty piece after them, exactly when every
   * document is plain.
   */
  lemma {:induction false} DecodableExactly(docs: seq<string>)
    ensures Split(Marshalled(docs), SEPARATOR) == docs + [""] <==> forall doc <- docs :: Plain(doc)
  {
    if docs != [] {
      var doc, rest := docs[0], Marshalled(docs[1..]);
      assert docs == [doc] + docs[1..];
      assert docs + [""] == [doc] + (docs[1..] + [""]);
      DecodableExactly(docs[1..]);
      if Plain(doc) {
        PlainDocIsCut(doc, rest);
        assert Split(Marshalled(docs), SEPARATOR)[1..] == Split(rest, SEPARATOR);
        assert (docs + [""])[1..] == docs[1..] + [""];
      } else {
        OtherDocIsNot(doc, rest);
      }
    }
  }

  // ----- the evaluator's write -----

  /** getEventMatchingResources; fetched is None for Go's nil slice, which is not an error, and so is collected. */
  method GetEventMatchingResources(fetched: Option<seq<Resource>>, collect: bool)
    returns (matching: seq<Ref>, collected: Option<seq<Resource>>)
    ensures var items := if fetched.Some? then fetched.value else [];
            |matching| == |items| && forall i | 0 <= i < |items| :: matching[i] == items[i].ref
    ensures collected == if fetched.None? then None else if collect then fetched else Some([])
  {
    if fetched.None? {
      return [], None;
    }
    matching := [];
    var kept: seq<Resource> := [];
    for i := 0 to |fetched.value|
      invariant |matching| == i && forall j | 0 <= j < i :: matching[j] == fetched.value[j].ref
      invariant kept == if collect then fetched.value[..i] else []
    {
      matching := matching + [fetched.value[i].ref];
      if collect {
        kept := kept + [fetched.value[i]];
      }
    }
    assert fetched.value[..|fetched.value|] == fetched.value;
    return matching, Some(kept);
  }

  /**
   * What evaluateEventSourceInstance writes for the fetched resources, None for an error. The references and the
   * documents stand in the same order, so that a reader of the report can pair them again.
   */
  method EvaluatedPayload(fetched: Option<seq<Resource>>, collect: bool) returns (payload: Option<EventReports.Payload>)
    ensures var items := if fetched.Some? then fetched.value else [];
            && (payload.Some? <==> collect ==> CanMarshal(items))
            && (payload.Some? ==>
                  && payload.value.Evaluated?
                  && |payload.value.matching| == |items|
                  && (forall i | 0 <= i < |items| :: payload.value.matching[i] == items[i].ref)
                  && (payload.value.resources.None? <==> items == [])
                  && (items != [] && !collect ==> payload.value.resources == Some(""))
                  && (items != [] && collect ==>
                        && (Split(payload.value.resources.value, SEPARATOR) == Docs(items) + [""] <==>
                            forall doc <- Docs(items) :: Plain(doc))))
  {
    var matching, collected := GetEventMatchingResources(fetched, collect);
    if collected.None? || |matching| == 0 {
      return Some(EventReports.Evaluated(matching, None));
    }
    var text := MarshalSlice(collected.value);
    if text.None? {
      return None;
    }
    DecodableExactly(Docs(collected.value));
    return Some(EventReports.Evaluated(matching, text));
  }
}
