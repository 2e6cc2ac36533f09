/** The shortest printed form of an Ollama model reference, and its inverse. */
module ModelReference {
  import opened Text

  const DEFAULT_REGISTRY := "registry.ollama.ai"
  const DEFAULT_NAMESPACE := "library"

  datatype Reference = Reference(registry: string, namespace: string, model: string, tag: string)

  predicate Alphanumeric(c: char) {
    'a' <= c <= 'z' || '0' <= c <= '9'
  }

  /** Device names that no portable path component may start with. */
  predicate Reserved(name: string) {
    || name in {"con", "prn", "aux", "nul"}
    || (|name| == 4 && (name[..3] == "com" || name[..3] == "lpt") && '1' <= name[3] <= '9')
  }

  predicate ValidComponent(value: string, maximum: nat) {
    && 0 < |value| <= maximum
    && Alphanumeric(value[0])
    && Alphanumeric(value[|value| - 1])
    && (forall i :: 0 <= i < |value| ==> Alphanumeric(value[i]) || value[i] in {'.', '_', '-'})
    && !Reserved(Split(value, '.')[0])
  }

  predicate Valid(r: Reference) {
    && ValidComponent(r.registry, 253)
    && ValidComponent(r.namespace, 128)
    && ValidComponent(r.model, 128)
    && ValidComponent(r.tag, 128)
  }

  /** Validates the four parts of a reference. */
  function New(registry: string, namespace: string, model: string, tag: string): Option<Reference> {
    var r := Reference(registry, namespace, model, tag);
    if Valid(r) then Some(r) else None
  }

  function RuntimeReference(r: Reference): string {
    if r.registry == DEFAULT_REGISTRY then
      if r.namespace == DEFAULT_NAMESPACE then r.model + ":" + r.tag
      else r.namespace + "/" + r.model + ":" + r.tag
    else r.registry + "/" + r.namespace + "/" + r.model + ":" + r.tag
  }

  /** Reads a printed reference, supplying the omitted defaults. */
  function Parse(s: string): Option<Reference> {
    var halves := Split(s, ':');
    if |halves| != 2 then None
    else
      var parts := Split(halves[0], '/');
      if |parts| == 1 then New(DEFAULT_REGISTRY, DEFAULT_NAMESPACE, parts[0], halves[1])
      else if |parts| == 2 then New(DEFAULT_REGISTRY, parts[0], parts[1], halves[1])
      else if |parts| == 3 then New(parts[0], parts[1], parts[2], halves[1])
      else None
  }

  lemma NoSeparators(value: string, maximum: nat)
    requires ValidComponent(value, maximum)
    ensures '/' !in value && ':' !in value
  {
  }

  lemma SplitPair(a: string, b: string, c: char)
    requires c !in a && c !in b
    ensures Split(a + [c] + b, c) == [a, b]
  {
    SplitCons(a, b, c);
    SplitOne(b, c);
  }

  lemma SplitThree(a: string, b: string, c: string)
    requires '/' !in a && '/' !in b && '/' !in c
    ensures Split(a + "/" + b + "/" + c, '/') == [a, b, c]
  {
    SplitPair(b, c, '/');
    SplitCons(a, b + "/" + c, '/');
    assert a + "/" + b + "/" + c == a + ['/'] + (b + "/" + c);
  }

  /** Every valid reference is read back from its shortest form, part for part. */
  lemma ParseUndoesPrint(r: Reference)
    requires Valid(r)
    ensures Parse(RuntimeReference(r)) == Some(r)
  {
    hide ValidComponent;
    NoSeparators(r.registry, 253);
    NoSeparators(r.namespace, 128);
    NoSeparators(r.model, 128);
    NoSeparators(r.tag, 128);
    if r.registry != DEFAULT_REGISTRY {
      SplitThree(r.registry, r.namespace, r.model);
      SplitPair(r.registry + "/" + r.namespace + "/" + r.model, r.tag, ':');
    } else if r.namespace != DEFAULT_NAMESPACE {
      SplitPair(r.namespace, r.model, '/');
      SplitPair(r.namespace + "/" + r.model, r.tag, ':');
    } else {
      SplitOne(r.model, '/');
      SplitPair(r.model, r.tag, ':');
    }
  }

  /** Different references print differently. */
  lemma PrintIsInjective(a: Reference, b: Reference)
    requires Valid(a) && Valid(b) && RuntimeReference(a) == RuntimeReference(b)
    ensures a == b
  {
    ParseUndoesPrint(a);
    ParseUndoesPrint(b);
  }

  lemma JoinTwo(a: string, b: string, c: char)
    ensures Join([a, b], c) == a + [c] + b
  {
    assert [a, b][1..] == [b];
  }

  lemma JoinThree(a: string, b: string, d: string, c: char)
    ensures Join([a, b, d], c) == a + [c] + (b + [c] + d)
  {
    assert [a, b, d][1..] == [b, d];
    JoinTwo(b, d, c);
  }

  /** No text that reads as the same reference is shorter than the printed one. */
  lemma PrintIsShortest(s: string)
    requires Parse(s).Some?
    ensures |RuntimeReference(Parse(s).value)| <= |s|
  {
    hide ValidComponent;
    var r := Parse(s).value;
    var halves := Split(s, ':');
    var parts := Split(halves[0], '/');
    JoinSplit(s, ':');
    JoinSplit(halves[0], '/');
    assert halves == [halves[0], halves[1]];
    JoinTwo(halves[0], halves[1], ':');
    assert |s| == |halves[0]| + 1 + |halves[1]|;
    if |parts| == 1 {
      assert Join(parts, '/') == parts[0];
    } else if |parts| == 2 {
      assert parts == [parts[0], parts[1]];
      JoinTwo(parts[0], parts[1], '/');
    } else {
      assert parts == [parts[0], parts[1], parts[2]];
      JoinThree(parts[0], parts[1], parts[2], '/');
    }
  }
}
