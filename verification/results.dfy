/** Python exceptions, as far as the library raises or lets them escape.
    A computation that may raise returns a `Raising<T>`; `:-` propagates the
    exception exactly as an uncaught Python exception propagates. */
module Exceptions {

  datatype Exc =
    | AssertionError
    | AttributeError
    | KeyError
    | TypeError
    | ValueError
    | NotImplementedError
    | OverflowError
    /** `quiz.utils.Empty`, raised by `init_last` on an empty list. */
    | Empty
    /** `quiz.core.Error` with its message. */
    | Error(message: string)
    /** The plain `Exception` that quiz/schema/to_types.py raises for scalars without a class. */
    | UndefinedScalars(names: set<string>)
    /** `NoSuchArgument` of quiz/types.py, raised by `InputObject.__init__`;
        its message joins the names of a set, so only the set is kept. */
    | UnknownArguments(names: set<string>)
    /** `MissingArgument` of quiz/types.py, raised by `InputObject.__init__`. */
    | MissingArguments(names: set<string>)

  /** Where the source is evidently wrong, definitions take the reading they
      follow: the code as written, or its correction. */
  datatype Revision = AsWritten | Corrected

  datatype Raising<T> = Returned(value: T) | Raised(exc: Exc) {

    predicate IsFailure() {
      Raised?
    }

    function PropagateFailure<U>(): Raising<U>
      requires Raised?
    {
      Raised(exc)
    }

    function Extract(): T
      requires Returned?
    {
      value
    }
  }
}

/** The `Result` algebra of quiz/types.py: `Ok` and `Err` values, their
    combinators, and the two aggregations `sequence` and `fields`. */
module Results {

  /** Python's `Optional`: `None` or a present value. */
  datatype Option<T> = None | Some(value: T)

  datatype Result<T, E> = Ok(value: T) | Err(error: E) {

    function Map<U>(f: T -> U): Result<U, E> {
      match this
      case Ok(v) => Ok(f(v))
      case Err(e) => Err(e)
    }

    function MapErr<V>(f: E -> V): Result<T, V> {
      match this
      case Ok(v) => Ok(v)
      case Err(e) => Err(f(e))
    }

    function MapOrElse<U, V>(f: T -> U, fallback: E -> V): Result<U, V> {
      match this
      case Ok(v) => Ok(f(v))
      case Err(e) => Err(fallback(e))
    }

    function FlatMap<U>(f: T -> Result<U, E>): Result<U, E> {
      match this
      case Ok(v) => f(v)
      case Err(e) => Err(e)
    }
  }

  /** The combinator laws the `Ok` and `Err` classes implement: an `Err` passes
      through `map` and `flatmap` untouched, an `Ok` passes through `map_err`,
      and `map_or_else` acts as `map` on the one side and `map_err` on the other. */
  lemma CombinatorLaws<T, E, U, V>(r: Result<T, E>, f: T -> U, g: E -> V, h: T -> Result<U, E>)
    ensures r.Err? ==> r.Map(f) == Err(r.error) && r.FlatMap(h) == Err(r.error)
    ensures r.Ok? ==> r.MapErr(g) == Ok(r.value) && r.FlatMap(h) == h(r.value)
    ensures r.MapOrElse(f, g) == (if r.Ok? then Ok(f(r.value)) else Err(g(r.error)))
    ensures r.Map(f).Ok? <==> r.Ok?
    ensures r.MapErr(g).Ok? <==> r.Ok?
  {
  }

  predicate AllOk<T, E>(rs: seq<Result<T, E>>) {
    forall i | 0 <= i < |rs| :: rs[i].Ok?
  }

  /** `errs` lists, by ascending index, exactly the failing positions of `rs` together with their errors. */
  predicate ListsFailures<T(==), E(==)>(rs: seq<Result<T, E>>, errs: seq<(nat, E)>) {
    && (forall k | 0 <= k < |errs| :: errs[k].0 < |rs| && rs[errs[k].0] == Err(errs[k].1))
    && (forall k, l | 0 <= k < l < |errs| :: errs[k].0 < errs[l].0)
    && (forall i | 0 <= i < |rs| && rs[i].Err? :: (i, rs[i].error) in errs)
  }

  /** `Result.sequence`, as its callers use it (with a one-shot iterator): all
      values when every result is `Ok`, otherwise every error with its index. */
  function Sequence<T(==), E(==)>(rs: seq<Result<T, E>>): (r: Result<seq<T>, seq<(nat, E)>>)
    ensures r.Ok? <==> AllOk(rs)
    ensures r.Ok? ==> |r.value| == |rs| && forall i | 0 <= i < |rs| :: r.value[i] == rs[i].value
    ensures r.Err? ==> ListsFailures(rs, r.error)
  {
    if |rs| == 0 then Ok([])
    else
      var init := Sequence(rs[..|rs| - 1]);
      var n := |rs| - 1;
      match (init, rs[n])
      case (Ok(vs), Ok(v)) => Ok(vs + [v])
      case (Ok(_), Err(e)) => Err([(n, e)])
      case (Err(es), Ok(_)) => Err(es)
      case (Err(es), Err(e)) => Err(es + [(n, e)])
  }

  /** Sequencing one more result of a prefix. */
  lemma SequencePrefix<T, E>(rs: seq<Result<T, E>>, i: nat)
    requires i < |rs|
    ensures Sequence(rs[..i + 1]) == match (Sequence(rs[..i]), rs[i])
      case (Ok(vs), Ok(v)) => Ok(vs + [v])
      case (Ok(_), Err(e)) => Err([(i, e)])
      case (Err(es), Ok(_)) => Err(es)
      case (Err(es), Err(e)) => Err(es + [(i, e)])
  {
    assert rs[..i + 1][..i] == rs[..i];
  }

  /** The two loops of `Result.sequence`: collect values up to the first error,
      then keep enumerating the same iterator and collect the later errors. */
  method SequenceLoop<T(==), E(==)>(rs: seq<Result<T, E>>) returns (r: Result<seq<T>, seq<(nat, E)>>)
    ensures r == Sequence(rs)
  {
    var oks: seq<T> := [];
    var i := 0;
    while i < |rs| && rs[i].Ok?
      invariant 0 <= i <= |rs|
      invariant Sequence(rs[..i]) == Ok(oks)
    {
      SequencePrefix(rs, i);
      oks := oks + [rs[i].value];
      i := i + 1;
    }
    if i == |rs| {
      assert rs[..i] == rs;
      return Ok(oks);
    }
    SequencePrefix(rs, i);
    var errs: seq<(nat, E)> := [(i, rs[i].error)];
    var j := i + 1;
    while j < |rs|
      invariant i < j <= |rs|
      invariant Sequence(rs[..j]) == Err(errs)
    {
      SequencePrefix(rs, j);
      if rs[j].Err? {
        errs := errs + [(j, rs[j].error)];
      }
      j := j + 1;
    }
    assert rs[..j] == rs;
    r := Err(errs);
  }

  /** `Result.sequence` given a list instead of an iterator: the second loop
      starts the list over, while numbering its items from one past the
      first error. */
  function SequenceOfList<T(==), E(==)>(rs: seq<Result<T, E>>): (r: Result<seq<T>, seq<(nat, E)>>)
    ensures AllOk(rs) ==> r == Sequence(rs)
  {
    var i := FirstErr(rs);
    if i == |rs| then Sequence(rs)
    else Err([(i, rs[i].error)] + Renumbered(rs, i + 1))
  }

  function FirstErr<T, E>(rs: seq<Result<T, E>>): (i: nat)
    ensures i <= |rs|
    ensures forall j | 0 <= j < i :: rs[j].Ok?
    ensures i < |rs| ==> rs[i].Err?
  {
    if |rs| == 0 then 0
    else if rs[0].Err? then 0
    else 1 + FirstErr(rs[1..])
  }

  /** The errors of `rs`, numbered from `start` onwards by position in `rs`. */
  function Renumbered<T, E>(rs: seq<Result<T, E>>, start: nat): seq<(nat, E)> {
    if |rs| == 0 then []
    else (if rs[0].Err? then [(start, rs[0].error)] else []) + Renumbered(rs[1..], start + 1)
  }

  /** An error followed by an `Ok` is reported twice, the second time under
      the index of the `Ok`, although only position 0 fails. */
  lemma SequenceOfListMislabels(e: string, v: int)
    ensures SequenceOfList([Err(e), Ok(v)]) == Err([(0, e), (1, e)])
    ensures Sequence([Err(e), Ok(v)]) == Err([(0, e)])
  {
    var rs: seq<Result<int, string>> := [Err(e), Ok(v)];
    assert FirstErr(rs) == 0;
    assert rs[1..][1..] == [];
    assert Renumbered(rs[1..], 2) == [];
    assert Renumbered(rs, 1) == [(1, e)];
    assert rs[..1] == [Err(e)];
    assert rs[..1][..0] == [];
    assert SequenceOfList(rs) == Err([(0, e)] + [(1, e)]);
    assert [(0, e)] + [(1, e)] == [(0, e), (1, e)];
  }

  predicate KeysMatch<K(==), T, U>(a: seq<(K, T)>, b: seq<(K, U)>) {
    |a| == |b| && forall i | 0 <= i < |a| :: a[i].0 == b[i].0
  }

  /** The failing entries of `entries`, in order. */
  function FailingEntries<K, T, E>(entries: seq<(K, Result<T, E>)>): (errs: seq<(K, E)>)
    ensures |errs| <= |entries|
  {
    if |entries| == 0 then []
    else
      var last := entries[|entries| - 1];
      FailingEntries(entries[..|entries| - 1]) + (if last.1.Err? then [(last.0, last.1.error)] else [])
  }

  /** `Result.fields`: a mapping of results becomes `Ok` of the mapping of
      values when all are `Ok`, otherwise `Err` of the failing names and errors. */
  function Fields<K(==), T, E>(entries: seq<(K, Result<T, E>)>): (r: Result<seq<(K, T)>, seq<(K, E)>>)
    ensures r.Ok? <==> forall i | 0 <= i < |entries| :: entries[i].1.Ok?
    ensures r.Ok? ==> KeysMatch(entries, r.value) && forall i | 0 <= i < |entries| :: r.value[i].1 == entries[i].1.value
    ensures r.Err? ==> r.error == FailingEntries(entries) && |r.error| > 0
  {
    if forall i | 0 <= i < |entries| :: entries[i].1.Ok? then
      Ok(seq(|entries|, i requires 0 <= i < |entries| => (entries[i].0, entries[i].1.value)))
    else
      NoFailuresMeansAllOk(entries);
      Err(FailingEntries(entries))
  }

  lemma {:induction false} NoFailuresMeansAllOk<K, T, E>(entries: seq<(K, Result<T, E>)>)
    ensures FailingEntries(entries) == [] <==> forall i | 0 <= i < |entries| :: entries[i].1.Ok?
  {
    if |entries| > 0 {
      var init := entries[..|entries| - 1];
      NoFailuresMeansAllOk(init);
      assert forall i | 0 <= i < |init| :: init[i] == entries[i];
    }
  }
}
