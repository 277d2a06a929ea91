/** Command parameters: the null workaround, the non-null filter and the nullable-type test. */
module Parameters {
  import opened Wrappers

  /** A parameter's `Value`: C# null, the `DBNull.Value` sentinel, or a real value. */
  datatype ParamValue<V> = Null | DbNull | Value(v: V)

  /** A `DbParameter` reduced to what the core reads: its name and its value. */
  datatype Param<V> = Param(name: string, value: ParamValue<V>)

  /** The `ParameterName`s, in order. */
  function Names<V>(ps: seq<Param<V>>): (ns: seq<string>)
    ensures |ns| == |ps|
    ensures forall i | 0 <= i < |ps| :: ns[i] == ps[i].name
  {
    seq(|ps|, i requires 0 <= i < |ps| => ps[i].name)
  }

  /** One parameter after the workaround: a null value becomes DBNull, anything else stays. */
  function Normalized<V>(p: Param<V>): Param<V>
  {
    if p.value.Null? then p.(value := DbNull) else p
  }

  /**
   * The parameter list after `SqlParameterNullWorkaround`: same length and names, no null
   * left, and every parameter that was not null is untouched.
   */
  function NormalizedAll<V>(ps: seq<Param<V>>): (r: seq<Param<V>>)
    ensures |r| == |ps|
    ensures forall i | 0 <= i < |ps| :: r[i].name == ps[i].name && !r[i].value.Null?
    ensures forall i | 0 <= i < |ps| && !ps[i].value.Null? :: r[i] == ps[i]
    ensures forall i | 0 <= i < |ps| && ps[i].value.Null? :: r[i].value == DbNull
  {
    seq(|ps|, i requires 0 <= i < |ps| => Normalized(ps[i]))
  }

  /** Normalising twice is normalising once. */
  lemma NormalizedAllIdempotent<V>(ps: seq<Param<V>>)
    ensures NormalizedAll(NormalizedAll(ps)) == NormalizedAll(ps)
  {
  }

  /** Normalising keeps the names. */
  lemma NamesOfNormalized<V>(ps: seq<Param<V>>)
    ensures Names(NormalizedAll(ps)) == Names(ps)
  {
  }

  /** Names and normalisation work element by element, so they split over a concatenation. */
  lemma NormalizedConcat<V>(a: seq<Param<V>>, b: seq<Param<V>>)
    ensures Names(a + b) == Names(a) + Names(b)
    ensures NormalizedAll(a + b) == NormalizedAll(a) + NormalizedAll(b)
  {
  }

  /** `SqlParameterNullWorkaround`: rewrites the array in place, element by element. */
  method SqlParameterNullWorkaround<V>(param: array<Param<V>>)
    modifies param
    ensures param[..] == NormalizedAll(old(param[..]))
  {
    var i := 0;
    while i < param.Length
      invariant 0 <= i <= param.Length
      invariant param[..i] == NormalizedAll(old(param[..]))[..i]
      invariant param[i..] == old(param[..])[i..]
    {
      param[i] := Normalized(param[i]);
      i := i + 1;
    }
  }

  /** `NotNullParams`: the parameters whose value is not C# null, in their order. */
  function NotNullParams<V>(ps: seq<Param<V>>): (r: seq<Param<V>>)
    ensures |r| <= |ps|
    ensures forall p | p in r :: p in ps && !p.value.Null?
    ensures forall p | p in ps && !p.value.Null? :: p in r
    decreases |ps|
  {
    if ps == [] then []
    else if ps[0].value.Null? then NotNullParams(ps[1..])
    else [ps[0]] + NotNullParams(ps[1..])
  }

  /** The filter keeps order across a split of the list. */
  lemma {:induction false} NotNullParamsConcat<V>(a: seq<Param<V>>, b: seq<Param<V>>)
    ensures NotNullParams(a + b) == NotNullParams(a) + NotNullParams(b)
    decreases |a|
  {
    if a == [] {
      assert a + b == b;
    } else {
      assert (a + b)[1..] == a[1..] + b;
      NotNullParamsConcat(a[1..], b);
    }
  }

  /** After the workaround the filter drops nothing. */
  lemma {:induction false} NotNullParamsOfNormalized<V>(ps: seq<Param<V>>)
    ensures NotNullParams(NormalizedAll(ps)) == NormalizedAll(ps)
    decreases |ps|
  {
    if ps != [] {
      assert NormalizedAll(ps)[1..] == NormalizedAll(ps[1..]);
      NotNullParamsOfNormalized(ps[1..]);
    }
  }

  /** A .NET type as `IsNullableParams` inspects it: its generic type definition, if any. */
  datatype ClrType = ClrType(name: string, genericDefinition: Option<string>)

  /** The name of `typeof(Nullable<>)`. */
  const NullableDefinition: string := "System.Nullable`1"

  /** `t.IsGenericType && t.GetGenericTypeDefinition() == typeof(Nullable<>)`. */
  predicate IsNullableType(t: ClrType)
  {
    t.genericDefinition == Some(NullableDefinition)
  }

  /** `IsNullableParams`: true exactly when EVERY type is a `Nullable<>` (and for no types). */
  method IsNullableParams(types: seq<ClrType>) returns (result: bool)
    ensures result <==> forall i | 0 <= i < |types| :: IsNullableType(types[i])
  {
    result := true;
    var i := 0;
    while i < |types|
      invariant 0 <= i <= |types|
      invariant result <==> forall j | 0 <= j < i :: IsNullableType(types[j])
    {
      result := result && IsNullableType(types[i]);
      i := i + 1;
    }
  }
}
