/**
 The tagged unions of sdk/go/models_gen.go: one struct with a pointer per variant, of which the tag in
 the body picks one. Uniform in the number of variants; PublicDecision has fourteen.
 */
module TaggedUnions {
  import opened Options
  import opened Sequences

  /**
   encoding/json for one union: the tags in declaration order, the tag member of a body, decoding and
   encoding of the i-th variant, which values are of the i-th variant's type, and the tag a variant
   value carries itself. V is the sum of the variants' types.
   */
  datatype Codec<!V> = Codec(
    tags: seq<string>,
    tagOf: string -> Option<string>,
    decode: (nat, string) -> Option<V>,
    encode: (nat, V) -> string,
    fits: (nat, V) -> bool,
    kindOf: V -> string)

  ghost predicate Distinct(tags: seq<string>) {
    forall i, j :: 0 <= i < j < |tags| ==> tags[i] != tags[j]
  }

  /**
   Encoding is reversible on values of the variant's own type and keeps the tag; decoding yields such
   values and keeps the tag; no body is empty.
   */
  ghost predicate Lawful<V(!new)>(c: Codec<V>) {
    && Distinct(c.tags)
    && (forall i: nat, v :: i < |c.tags| && c.fits(i, v) ==>
          c.decode(i, c.encode(i, v)) == Some(v) && c.tagOf(c.encode(i, v)) == Some(c.kindOf(v)))
    && (forall i: nat, d :: i < |c.tags| && c.decode(i, d).Some? ==>
          c.fits(i, c.decode(i, d).value) && c.tagOf(d) == Some(c.kindOf(c.decode(i, d).value)))
    && c.tagOf("") == None
  }

  datatype Value<V> = Value(kind: string, variants: seq<Option<V>>, raw: string)

  function Fresh<V>(n: nat): Value<V> {
    Value("", seq(n, _ => None), "")
  }

  /** What UnmarshalJSON leaves in the value, and whether it returned no error. */
  function Unmarshalled<V>(c: Codec<V>, u: Value<V>, data: string): (r: (Value<V>, bool))
    requires |u.variants| == |c.tags|
  {
    match c.tagOf(data)
    case None => (u.(raw := data), false)
    case Some(kind) =>
      var i := IndexOf(c.tags, kind);
      var tagged := u.(raw := data, kind := kind);
      if i == |c.tags| then (tagged, true)
      else
        match c.decode(i, data)
        case None => (tagged, false)
        case Some(v) => (tagged.(variants := u.variants[i := Some(v)]), true)
  }

  function FirstSet<V>(variants: seq<Option<V>>): (i: nat)
    ensures i <= |variants| && (forall j :: 0 <= j < i ==> variants[j].None?)
    ensures i < |variants| ==> variants[i].Some?
  {
    if variants == [] || variants[0].Some? then 0 else 1 + FirstSet(variants[1..])
  }

  /** What MarshalJSON returns. */
  function Marshalled<V>(c: Codec<V>, u: Value<V>): string {
    var i := FirstSet(u.variants);
    if i < |u.variants| then c.encode(i, u.variants[i].value)
    else if u.raw != "" then u.raw
    else "null"
  }

  class Union<V> {
    const codec: Codec<V>
    var kind: string
    var variants: seq<Option<V>>
    var raw: string

    constructor (codec: Codec<V>)
      ensures this.codec == codec && Contents() == Fresh(|codec.tags|)
    {
      this.codec, kind, raw := codec, "", "";
      variants := seq(|codec.tags|, _ => None);
    }

    function Contents(): Value<V>
      reads this
    {
      Value(kind, variants, raw)
    }

    method UnmarshalJSON(data: string) returns (ok: bool)
      requires |variants| == |codec.tags|
      modifies this
      ensures (Contents(), ok) == Unmarshalled(codec, old(Contents()), data)
    {
      raw := data;
      var tag := codec.tagOf(data);
      if tag.None? {
        return false;
      }
      kind := tag.value;
      var i := IndexOf(codec.tags, kind);
      if i < |codec.tags| {
        var out := codec.decode(i, data);
        if out.None? {
          return false;
        }
        variants := variants[i := out];
      }
      return true;
    }
  }

  lemma FirstSetIs<V>(variants: seq<Option<V>>, i: nat)
    requires i <= |variants| && (forall j :: 0 <= j < i ==> variants[j].None?)
    requires i < |variants| ==> variants[i].Some?
    ensures FirstSet(variants) == i
  {
    var f := FirstSet(variants);
    assert f < |variants| ==> variants[f].Some?;
  }

  /** Exactly the i-th variant is set. */
  predicate Only<V>(u: Value<V>, i: nat) {
    forall j :: 0 <= j < |u.variants| ==> (u.variants[j].Some? <==> j == i)
  }

  /** Every variant set is of its own type: what Go's types see to. */
  predicate Typed<V>(c: Codec<V>, u: Value<V>) {
    |u.variants| == |c.tags|
    && forall j :: 0 <= j < |u.variants| && u.variants[j].Some? ==> c.fits(j, u.variants[j].value)
  }

  /** Every variant set carries its own tag: true of whatever decoding makes. */
  predicate OwnTags<V>(c: Codec<V>, u: Value<V>) {
    Typed(c, u)
    && forall j :: 0 <= j < |u.variants| && u.variants[j].Some? ==> c.kindOf(u.variants[j].value) == c.tags[j]
  }

  lemma OwnTagsKept<V(!new)>(c: Codec<V>, u: Value<V>, data: string)
    requires Lawful(c) && OwnTags(c, u)
    ensures OwnTags(c, Unmarshalled(c, u, data).0)
  {}

  /**
   Decoding into a fresh value: with a known tag and a body that fits it, exactly that variant is
   set; otherwise none is, and only a tag this release does not know makes that no error.
   */
  lemma DecodeFresh<V(!new)>(c: Codec<V>, data: string)
    requires Lawful(c)
    ensures var (u, ok) := Unmarshalled(c, Fresh(|c.tags|), data);
      var known := c.tagOf(data).Some? && c.tagOf(data).value in c.tags;
      && u.raw == data
      && (ok && known <==> exists i :: 0 <= i < |c.tags| && Only(u, i))
      && (ok && known ==> Only(u, IndexOf(c.tags, u.kind)) && u.kind == c.tagOf(data).value)
      && (!(ok && known) ==> FirstSet(u.variants) == |u.variants|)
      && (c.tagOf(data).Some? && !known ==> ok)
      && (c.tagOf(data).None? ==> !ok)
  {
    var (u, ok) := Unmarshalled(c, Fresh(|c.tags|), data);
    var known := c.tagOf(data).Some? && c.tagOf(data).value in c.tags;
    if ok && known {
      assert Only(u, IndexOf(c.tags, u.kind));
    } else {
      FirstSetIs(u.variants, |u.variants|);
      forall i | 0 <= i < |c.tags| ensures !Only(u, i) {
        assert u.variants[i].None?;
      }
    }
  }

  /**
   What one decode leaves in any value, and when it succeeds. The body is kept whatever happens, the kind
   once it could be read, and only the variant under that tag is written, if the body fits it. It fails
   if the tag cannot be read, or if it is known and the body does not fit.
   */
  lemma DecodeInFull<V(!new)>(c: Codec<V>, u: Value<V>, data: string)
    requires Distinct(c.tags) && |u.variants| == |c.tags|
    ensures var (r, ok) := Unmarshalled(c, u, data);
      && r.raw == data && r.kind == (if c.tagOf(data).None? then u.kind else c.tagOf(data).value)
      && |r.variants| == |u.variants|
      && (forall i :: 0 <= i < |c.tags| ==>
            r.variants[i] == if c.tagOf(data) == Some(c.tags[i]) && c.decode(i, data).Some? then c.decode(i, data)
                             else u.variants[i])
      && (ok <==> c.tagOf(data).Some?
                  && forall i :: 0 <= i < |c.tags| && c.tagOf(data) == Some(c.tags[i]) ==> c.decode(i, data).Some?)
  {
    if c.tagOf(data).Some? && c.tagOf(data).value in c.tags {
      var k := IndexOf(c.tags, c.tagOf(data).value);
      assert forall i :: 0 <= i < |c.tags| && i != k ==> c.tags[i] != c.tags[k];
    }
  }

  /** What is encoded: the first variant that is set; if none is, the body last decoded; if none was, null. */
  lemma EncodeInFull<V>(c: Codec<V>, u: Value<V>)
    ensures forall i :: 0 <= i < |u.variants| && u.variants[i].Some? && (forall j :: 0 <= j < i ==> u.variants[j].None?) ==>
      Marshalled(c, u) == c.encode(i, u.variants[i].value)
    ensures (forall i :: 0 <= i < |u.variants| ==> u.variants[i].None?) ==>
      Marshalled(c, u) == if u.raw == "" then "null" else u.raw
  {
    forall i | 0 <= i < |u.variants| && u.variants[i].Some? && forall j :: 0 <= j < i ==> u.variants[j].None?
      ensures FirstSet(u.variants) == i
    {
      FirstSetIs(u.variants, i);
    }
  }

  lemma TagIndex(tags: seq<string>, i: nat)
    requires Distinct(tags) && i < |tags|
    ensures IndexOf(tags, tags[i]) == i
  {
    var k := IndexOf(tags, tags[i]);
    assert k <= i;
  }

  /**
   Decode after encode restores a value with a single variant set, into a fresh value, exactly if
   that variant carries its own tag.
   */
  lemma DecodeAfterEncode<V(!new)>(c: Codec<V>, u: Value<V>, i: nat)
    requires Lawful(c) && Typed(c, u) && i < |c.tags| && Only(u, i)
    ensures var (r, ok) := Unmarshalled(c, Fresh(|c.tags|), Marshalled(c, u));
      ok && r.variants == u.variants && r.kind == c.tags[i] <==> c.kindOf(u.variants[i].value) == c.tags[i]
  {
    var v := u.variants[i].value;
    FirstSetIs(u.variants, i);
    TagIndex(c.tags, i);
    assert Fresh<V>(|c.tags|).variants[i := Some(v)] == u.variants;
  }

  /**
   Decoding does not clear the variant an earlier decode into the same value has set. The value then
   encodes the body it was last given exactly if no earlier-declared variant is left over.
   */
  lemma ReuseExactlyWhen<V(!new)>(c: Codec<V>, u: Value<V>, data: string, i: nat)
    requires Lawful(c) && OwnTags(c, u) && i < |c.tags|
    requires c.tagOf(data) == Some(c.tags[i]) && c.decode(i, data).Some?
    ensures Marshalled(c, Unmarshalled(c, u, data).0) == c.encode(i, c.decode(i, data).value)
       <==> forall j :: 0 <= j < i ==> u.variants[j].None?
  {
    TagIndex(c.tags, i);
    var after := Unmarshalled(c, u, data).0;
    var f := FirstSet(after.variants);
    assert after.variants[i].Some?;
    if f == i {
      assert forall j :: 0 <= j < i ==> after.variants[j] == u.variants[j];
    } else {
      assert u.variants[f].Some? && c.tags[f] != c.tags[i];
      assert c.tagOf(c.encode(f, u.variants[f].value)) == Some(c.tags[f]);
      assert c.tagOf(c.encode(i, c.decode(i, data).value)) == Some(c.tags[i]);
    }
  }

  /** A body of a variant this release does not know comes out verbatim, exactly if nothing is left over. */
  lemma UnknownVerbatimExactlyWhen<V(!new)>(c: Codec<V>, u: Value<V>, data: string)
    requires Lawful(c) && OwnTags(c, u) && c.tagOf(data).Some? && c.tagOf(data).value !in c.tags
    ensures Unmarshalled(c, u, data).1
    ensures Marshalled(c, Unmarshalled(c, u, data).0) == data <==> FirstSet(u.variants) == |u.variants|
  {
    var f := FirstSet(u.variants);
    if f < |u.variants| {
      assert c.tagOf(c.encode(f, u.variants[f].value)) == Some(c.tags[f]);
    }
  }

  /**
   "Exactly one variant pointer is non-nil" is not what decoding leaves: it does so exactly if the
   value held no other variant before.
   */
  lemma OnlyOneExactlyWhen<V(!new)>(c: Codec<V>, u: Value<V>, data: string, i: nat)
    requires Lawful(c) && Typed(c, u) && i < |c.tags|
    requires c.tagOf(data) == Some(c.tags[i]) && c.decode(i, data).Some?
    ensures Only(Unmarshalled(c, u, data).0, i)
       <==> forall j :: 0 <= j < |u.variants| && j != i ==> u.variants[j].None?
  {
    TagIndex(c.tags, i);
    var after := Unmarshalled(c, u, data).0;
    assert after.variants == u.variants[i := c.decode(i, data)];
    assert forall j :: 0 <= j < |u.variants| && j != i ==> after.variants[j] == u.variants[j];
  }

  /** Two decodes into one value, the earlier-declared variant first: both stay set, and that one is encoded. */
  lemma TwoDecodes<V(!new)>(c: Codec<V>, first: string, second: string, i: nat, j: nat)
    requires Lawful(c) && i < j < |c.tags|
    requires c.tagOf(first) == Some(c.tags[i]) && c.decode(i, first).Some?
    requires c.tagOf(second) == Some(c.tags[j]) && c.decode(j, second).Some?
    ensures var once := Unmarshalled(c, Fresh(|c.tags|), first).0;
      var twice := Unmarshalled(c, once, second).0;
      && twice.kind == c.tags[j] && |twice.variants| == |c.tags|
      && twice.variants[i] == c.decode(i, first) && twice.variants[j] == c.decode(j, second)
      && (forall k :: !Only(twice, k))
      && Marshalled(c, twice) == c.encode(i, c.decode(i, first).value)
  {
    TagIndex(c.tags, i);
    TagIndex(c.tags, j);
    var once := Unmarshalled(c, Fresh(|c.tags|), first).0;
    var twice := Unmarshalled(c, once, second).0;
    FirstSetIs(twice.variants, i);
  }

  // ---- PublicDecision ----

  const PUBLIC_DECISION_TAGS := [
    "requirements-review", "fork", "judge", "input-gate", "approval-gate", "agent-decision", "clarity-review",
    "brainstorm", "pr-review", "bug-fishing", "human-test", "visual-confirmation", "follow-ups", "interview"]

  lemma PublicDecisionTagsDistinct()
    ensures |PUBLIC_DECISION_TAGS| == 14 && Distinct(PUBLIC_DECISION_TAGS)
  {
    var tags := PUBLIC_DECISION_TAGS;
    assert forall i, j :: 0 <= i < j < |tags| ==> |tags[i]| != |tags[j]| || tags[i][0] != tags[j][0];
  }

  /** A decision of the i-th of the fourteen types. */
  datatype Decision = Decision(variant: nat, kind: string, rest: string)

  /** The simplest wire form that has a tag member: the tag, a line end, the rest. */
  function DecisionTag(d: string): Option<string> {
    if '\n' in d then Some(d[..IndexOf(d, '\n')]) else None
  }

  function DecisionCodec(): Codec<Decision> {
    Codec(
      PUBLIC_DECISION_TAGS,
      DecisionTag,
      (i, d) =>
        if '\n' in d then Some(Decision(i, d[..IndexOf(d, '\n')], d[IndexOf(d, '\n') + 1..])) else None,
      (i, v: Decision) => v.kind + "\n" + v.rest,
      (i, v: Decision) => v.variant == i && '\n' !in v.kind,
      (v: Decision) => v.kind)
  }

  lemma DecisionEncodes(v: Decision)
    requires '\n' !in v.kind
    ensures var d := v.kind + "\n" + v.rest;
      IndexOf(d, '\n') == |v.kind| && d[..|v.kind|] == v.kind && d[|v.kind| + 1..] == v.rest
  {
    IndexIs(v.kind + "\n" + v.rest, '\n', |v.kind|);
  }

  /**
   The laws can be met by fourteen different types under PublicDecision's tags: no value is of two
   variants, and everything above holds of it.
   */
  lemma DecisionCodecIsLawful()
    ensures Lawful(DecisionCodec()) && DecisionCodec().tags == PUBLIC_DECISION_TAGS && |DecisionCodec().tags| == 14
    ensures forall i, j, v :: DecisionCodec().fits(i, v) && DecisionCodec().fits(j, v) ==> i == j
  {
    PublicDecisionTagsDistinct();
    var c := DecisionCodec();
    forall i: nat, v | i < |c.tags| && c.fits(i, v)
      ensures c.decode(i, c.encode(i, v)) == Some(v) && c.tagOf(c.encode(i, v)) == Some(c.kindOf(v))
    {
      DecisionEncodes(v);
      assert (v.kind + "\n" + v.rest)[|v.kind|] == '\n';
    }
    forall i: nat, d | i < |c.tags| && c.decode(i, d).Some?
      ensures c.fits(i, c.decode(i, d).value) && c.tagOf(d) == Some(c.kindOf(c.decode(i, d).value))
    {
      assert forall k :: 0 <= k < IndexOf(d, '\n') ==> d[..IndexOf(d, '\n')][k] != '\n';
    }
  }

  /** A decision of the i-th type under its own tag. */
  predicate Tagged(i: nat, v: Decision) {
    i < 14 && v.variant == i && v.kind == PUBLIC_DECISION_TAGS[i]
  }

  lemma TaggedIsEncoded(i: nat, v: Decision)
    requires Tagged(i, v)
    ensures var c := DecisionCodec();
      i < |c.tags| && c.decode(i, c.encode(i, v)) == Some(v) && c.tagOf(c.encode(i, v)) == Some(c.tags[i])
  {
    DecisionCodecIsLawful();
    TagIsOneLine(i);
    hide PUBLIC_DECISION_TAGS;
  }

  lemma TagIsOneLine(i: nat)
    requires i < 14
    ensures '\n' !in PUBLIC_DECISION_TAGS[i]
  {}

  /** A fork decoded, then a judge into the same value: both are set, and the fork is what comes out. */
  lemma LeftoverFork(fork: Decision, judge: Decision)
    requires Tagged(1, fork) && Tagged(2, judge)
    ensures var c := DecisionCodec();
      var once := Unmarshalled(c, Fresh(|c.tags|), c.encode(1, fork)).0;
      var twice := Unmarshalled(c, once, c.encode(2, judge)).0;
      && |twice.variants| == 14 && twice.variants[1] == Some(fork) && twice.variants[2] == Some(judge)
      && Marshalled(c, twice) == c.encode(1, fork)
  {
    hide *;
    DecisionCodecIsLawful();
    TaggedIsEncoded(1, fork);
    TaggedIsEncoded(2, judge);
    TwoDecodes(DecisionCodec(), DecisionCodec().encode(1, fork), DecisionCodec().encode(2, judge), 1, 2);
  }
}
