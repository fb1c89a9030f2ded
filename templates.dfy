/**
 * enrichTemplate: every field of the data object is substituted into the
 * template with replaceAll, in the order the fields are written, each
 * replacement working on the result of the one before; the result then
 * goes through the HTML optimiser.
 */
module Templates {
  import opened Wrappers
  import opened Strings
  import opened ReplaceFacts
  import opened Errors

  /** A field's value: a string, or `undefined` when the metadata key is absent. */
  datatype FieldValue = Str(s: string) | Undefined

  /** A field of the data object: the placeholder token and its value. */
  type Field = (string, FieldValue)

  /** The optimiser (html-minifier), which may reject its input. */
  type Optimizer = string -> Result<string, Error>

  /** The replacement text replaceAll uses: ToString of the value, so `undefined` becomes "undefined". */
  function Text(v: FieldValue): string
  {
    match v
    case Str(s) => s
    case Undefined => "undefined"
  }

  predicate TokensNonEmpty(data: seq<Field>)
  {
    forall i :: 0 <= i < |data| ==> |data[i].0| > 0
  }

  /** None of the tokens occurs in `t`. */
  predicate NoneOccur(t: string, data: seq<Field>)
  {
    forall i :: 0 <= i < |data| ==> !Contains(t, data[i].0)
  }

  /** The fields substituted in order: the last field is replaced in the result of the others. */
  function Substitute(t: string, data: seq<Field>): (r: string)
    requires TokensNonEmpty(data)
    ensures NoneOccur(t, data) ==> r == t
    decreases |data|
  {
    if data == [] then t
    else
      var field := data[|data| - 1];
      assert forall i :: 0 <= i < |data| - 1 ==> data[..|data| - 1][i] == data[i];
      ReplaceAll(Substitute(t, data[..|data| - 1]), field.0, Text(field.1))
  }

  /** enrichTemplate as a function: substitution, then the optimiser. */
  function Enrich(t: string, data: seq<Field>, optimize: Optimizer): Result<string, Error>
    requires TokensNonEmpty(data)
  {
    optimize(Substitute(t, data))
  }

  /** enrichTemplate's loop over the fields of `data`, in their order. */
  method EnrichTemplate(template: string, data: seq<Field>, optimize: Optimizer) returns (r: Result<string, Error>)
    requires TokensNonEmpty(data)
    ensures r == Enrich(template, data, optimize)
  {
    var enriched := template;
    var i := 0;
    while i < |data|
      invariant i <= |data|
      invariant TokensNonEmpty(data[..i])
      invariant enriched == Substitute(template, data[..i])
    {
      var field := data[i];
      assert data[..i + 1][..i] == data[..i];
      enriched := ReplaceAll(enriched, field.0, Text(field.1));
      i := i + 1;
    }
    assert data[..i] == data;
    r := optimize(enriched);
  }

  /** Substituting `a` and then `b` is substituting `a + b`. */
  lemma {:induction false} SubstituteAppend(t: string, a: seq<Field>, b: seq<Field>)
    requires TokensNonEmpty(a) && TokensNonEmpty(b)
    ensures TokensNonEmpty(a + b)
    ensures Substitute(t, a + b) == Substitute(Substitute(t, a), b)
    decreases |b|
  {
    if b == [] {
      assert a + b == a;
    } else {
      var init := b[..|b| - 1];
      assert forall i :: 0 <= i < |init| ==> init[i] == b[i];
      SubstituteAppend(t, a, init);
      assert (a + b)[..|a + b| - 1] == a + init;
    }
  }

  /**
   * The first field is replaced in the template itself and the others in
   * that result: substitution is cumulative and follows field order.
   */
  lemma SubstituteFirst(t: string, field: Field, rest: seq<Field>)
    requires |field.0| > 0 && TokensNonEmpty(rest)
    ensures TokensNonEmpty([field] + rest)
    ensures Substitute(t, [field] + rest) == Substitute(ReplaceAll(t, field.0, Text(field.1)), rest)
  {
    SubstituteAppend(t, [field], rest);
    assert [field][..0] == [];
  }

  /** enrichTemplate with no fields optimises the template; with fields, it goes on from the first replacement. */
  lemma EnrichCumulative(t: string, field: Field, rest: seq<Field>, optimize: Optimizer)
    requires |field.0| > 0 && TokensNonEmpty(rest)
    ensures Enrich(t, [], optimize) == optimize(t)
    ensures TokensNonEmpty([field] + rest)
    ensures Enrich(t, [field] + rest, optimize) == Enrich(ReplaceAll(t, field.0, Text(field.1)), rest, optimize)
  {
    SubstituteFirst(t, field, rest);
  }

  /** The order of the fields matters: `$a` -> `$b` then `$b` -> `x` is not the other order. */
  lemma OrderMatters()
    ensures Substitute("$a", [("$a", Str("$b")), ("$b", Str("x"))]) == "x"
    ensures Substitute("$a", [("$b", Str("x")), ("$a", Str("$b"))]) == "$b"
  {
    var f1, f2 := ("$a", Str("$b")), ("$b", Str("x"));
    assert [f1, f2][..1] == [f1];
    assert [f2, f1][..1] == [f2];
    SubstituteOne("$a", f1);
    SubstituteOne("$a", f2);
    assert NoPatterns("$b") && NoPatterns("x");
    ReplaceWhole("$a", "$b");
    ReplaceWhole("$b", "x");
    assert "$a"[1] != "$b"[1];
    assert !Contains("$a", "$b");
  }

  /** One field is one replaceAll. */
  lemma SubstituteOne(t: string, field: Field)
    requires |field.0| > 0
    ensures Substitute(t, [field]) == ReplaceAll(t, field.0, Text(field.1))
  {
    assert [field][..0] == [];
  }

  lemma UndefinedIsLiteral()
    ensures NoPatterns(Text(Undefined))
  {
    NoDollarNoPatterns(Text(Undefined));
  }

  /**
   * A field whose value is `undefined` is not skipped: its first
   * occurrence becomes the text "undefined", and so does every later one.
   */
  lemma UndefinedFieldWritten(t: string, tok: string, p: nat)
    requires |tok| > 0 && IndexOf(t, tok, 0) == Some(p)
    ensures Substitute(t, [(tok, Undefined)]) == t[..p] + "undefined" + LiteralFrom(t, tok, "undefined", p + |tok|)
    ensures Contains(Substitute(t, [(tok, Undefined)]), "undefined")
  {
    var v := Text(Undefined);
    UndefinedIsLiteral();
    FirstOccurrenceReplaced(t, tok, v, p);
    SubstituteOne(t, (tok, Undefined));
    MiddleContained(t[..p], v, LiteralFrom(t, tok, v, p + |tok|));
  }
}
