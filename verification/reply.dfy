/**
  The text of the local model's reply. An OpenAI-compatible server sends the
  message `content` either as one string or as a list of parts; parts that are
  objects may carry a `"text"` field, and anything else in the list is ignored.
*/
module Reply {
  import opened Wrappers

  /** One element of a list-valued `content`: an object whose `"text"` key may
      be absent, or any non-object value. */
  datatype Part = Dict(text: Option<string>) | Other

  datatype Content = Str(s: string) | Parts(parts: seq<Part>)

  /** What `part.get("text", "")` yields for an object part. */
  function PartText(p: Part): string
    requires p.Dict?
  {
    p.text.GetOr("")
  }

  /** The generator inside the join: one text per object part, in list order,
      non-object parts filtered out. */
  function DictTexts(parts: seq<Part>): (r: seq<string>)
    ensures |r| <= |parts|
    ensures (forall i :: 0 <= i < |parts| ==> parts[i].Dict?) ==>
              |r| == |parts| && forall i :: 0 <= i < |r| ==> r[i] == PartText(parts[i])
    ensures (forall i :: 0 <= i < |parts| ==> parts[i].Other?) ==> r == []
  {
    if parts == [] then []
    else
      var rest := DictTexts(parts[1..]);
      (if parts[0].Dict? then [PartText(parts[0])] else []) + rest
  }

  /** `"".join(texts)`: the result is empty exactly when every piece is, and a
      single piece is its own join. */
  function Join(texts: seq<string>): (r: string)
    ensures r == [] <==> forall i :: 0 <= i < |texts| ==> texts[i] == []
    ensures |texts| == 1 ==> r == texts[0]
  {
    if texts == [] then [] else texts[0] + Join(texts[1..])
  }

  /** The reply text handed on to fence stripping: string content as it is,
      and for a list the in-order concatenation of every part's contribution. */
  function FlattenContent(content: Content): (r: string)
    ensures content.Str? ==> r == content.s
    ensures content.Parts? ==> r == Contributions(content.parts)
  {
    match content
    case Str(s) => s
    case Parts(parts) =>
      JoinDictTexts(parts);
      Join(DictTexts(parts))
  }

  /** String content is used as it is. */
  lemma FlattenString(s: string)
    ensures FlattenContent(Str(s)) == s
  {
  }

  // ---------------------------------------------------------------------------
  // The list case, part by part

  /** What one part adds to the flattened text: its `"text"`, `""` for an object
      without one, and nothing for a non-object. */
  function Contribution(p: Part): string {
    match p
    case Dict(t) => t.GetOr("")
    case Other => []
  }

  /** A list without object parts flattens to the empty text. */
  lemma {:induction false} FlattenNoDicts(parts: seq<Part>)
    requires forall i :: 0 <= i < |parts| ==> parts[i].Other?
    ensures FlattenContent(Parts(parts)) == []
  {
    if parts != [] {
      FlattenNoDicts(parts[1..]);
      assert parts[0].Other?;
      assert DictTexts(parts) == [] + DictTexts(parts[1..]) == DictTexts(parts[1..]);
    }
  }

  lemma {:induction false} JoinAppend(a: seq<string>, b: seq<string>)
    ensures Join(a + b) == Join(a) + Join(b)
  {
    if a == [] {
      assert a + b == b;
    } else {
      assert (a + b)[1..] == a[1..] + b;
      JoinAppend(a[1..], b);
    }
  }

  lemma {:induction false} DictTextsAppend(a: seq<Part>, b: seq<Part>)
    ensures DictTexts(a + b) == DictTexts(a) + DictTexts(b)
  {
    if a == [] {
      assert a + b == b;
    } else {
      assert (a + b)[0] == a[0];
      assert (a + b)[1..] == a[1..] + b;
      DictTextsAppend(a[1..], b);
    }
  }

  /** Flattening a list is compositional: the text of a concatenation of part
      lists is the concatenation of their texts, in order. */
  lemma FlattenAppend(a: seq<Part>, b: seq<Part>)
    ensures FlattenContent(Parts(a + b)) == FlattenContent(Parts(a)) + FlattenContent(Parts(b))
  {
    DictTextsAppend(a, b);
    JoinAppend(DictTexts(a), DictTexts(b));
  }

  /** A one-part list yields that part's contribution. */
  lemma FlattenSingle(p: Part)
    ensures FlattenContent(Parts([p])) == Contribution(p)
  {
    assert [p][1..] == [];
    if p.Dict? {
      assert DictTexts([p]) == [PartText(p)];
      assert Join([PartText(p)]) == PartText(p) + [];
    } else {
      assert DictTexts([p]) == [];
    }
  }

  /** Every part sits in the flattened text at its own place: after the text of
      the parts before it and before the text of the parts after it. */
  lemma FlattenAt(parts: seq<Part>, i: nat)
    requires i < |parts|
    ensures FlattenContent(Parts(parts))
            == FlattenContent(Parts(parts[..i])) + Contribution(parts[i]) + FlattenContent(Parts(parts[i + 1..]))
  {
    assert parts == parts[..i] + ([parts[i]] + parts[i + 1..]);
    FlattenAppend(parts[..i], [parts[i]] + parts[i + 1..]);
    FlattenAppend([parts[i]], parts[i + 1..]);
    FlattenSingle(parts[i]);
  }

  /** The in-order concatenation of every part's contribution: an independent,
      part-by-part reading of the filtered join. */
  function Contributions(parts: seq<Part>): string {
    if parts == [] then [] else Contribution(parts[0]) + Contributions(parts[1..])
  }

  lemma {:induction false} JoinDictTexts(parts: seq<Part>)
    ensures Join(DictTexts(parts)) == Contributions(parts)
  {
    if parts != [] {
      var head := if parts[0].Dict? then [PartText(parts[0])] else [];
      assert DictTexts(parts) == head + DictTexts(parts[1..]);
      JoinAppend(head, DictTexts(parts[1..]));
      JoinDictTexts(parts[1..]);
    }
  }

  /** Non-object parts are skipped: removing one leaves the text unchanged. */
  lemma FlattenSkipsOther(parts: seq<Part>, i: nat)
    requires i < |parts| && parts[i].Other?
    ensures FlattenContent(Parts(parts)) == FlattenContent(Parts(parts[..i] + parts[i + 1..]))
  {
    var before, after := FlattenContent(Parts(parts[..i])), FlattenContent(Parts(parts[i + 1..]));
    FlattenAt(parts, i);
    assert Contribution(parts[i]) == [];
    assert before + Contribution(parts[i]) + after == before + after;
    FlattenAppend(parts[..i], parts[i + 1..]);
  }

  /** An object part without `"text"` adds nothing either. */
  lemma FlattenSkipsMissingText(parts: seq<Part>, i: nat)
    requires i < |parts| && parts[i] == Dict(None)
    ensures FlattenContent(Parts(parts)) == FlattenContent(Parts(parts[..i] + parts[i + 1..]))
  {
    var before, after := FlattenContent(Parts(parts[..i])), FlattenContent(Parts(parts[i + 1..]));
    FlattenAt(parts, i);
    assert Contribution(parts[i]) == [];
    assert before + Contribution(parts[i]) + after == before + after;
    FlattenAppend(parts[..i], parts[i + 1..]);
  }

  /** A string split across object parts is put back together. */
  lemma FlattenReassembles(a: string, b: string)
    ensures FlattenContent(Parts([Dict(Some(a)), Other, Dict(Some(b))])) == a + b
  {
    var parts := [Dict(Some(a)), Other, Dict(Some(b))];
    FlattenSkipsOther(parts, 1);
    assert parts[..1] + parts[2..] == [Dict(Some(a))] + [Dict(Some(b))];
    FlattenAppend([Dict(Some(a))], [Dict(Some(b))]);
    FlattenSingle(Dict(Some(a)));
    FlattenSingle(Dict(Some(b)));
  }
}
