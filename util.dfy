/**
 * The static helpers of `unirest.Util`: turning an Optional into a stream,
 * a checked downcast, running an action that may throw without letting an
 * `Exception` escape, flattening a list of optional exceptions, and two
 * small total conversions.
 */
module Util {
  import opened Java

  /** `Util.stream`: an Optional as a stream of at most one element. */
  function Stream<T>(opt: Optional<T>): (s: seq<T>)
    ensures |s| == (if opt.Of? then 1 else 0)
    ensures forall i :: 0 <= i < |s| ==> opt == Of(s[i])
  {
    match opt
    case Empty => []
    case Of(x) => [x]
  }

  /** `Util.tryCast`: the same object, if it is non-null and its runtime
   *  class is assignable to `too`; otherwise empty. */
  function TryCast(original: Ref<Obj>, too: string): (r: Optional<Obj>)
    ensures original.Null? ==> r == Empty
    ensures r.Of? <==> original.Ptr? && IsAssignableFrom(too, original.target.cls)
    ensures r.Of? ==> r.value == original.target
  {
    if original.Ptr? && IsAssignableFrom(too, original.target.cls) then Of(original.target) else Empty
  }

  /** `Util.tryDo`: runs `consumer` on `c` when `c` is non-null. A normal
   *  completion, or no call at all, gives `Optional.empty()`; an
   *  `Exception` thrown by the consumer is returned, the very object that
   *  was thrown; any other throwable is not caught and propagates.
   *  What calling the consumer does is given by `consumer` itself. */
  function TryDo<T>(c: Ref<T>, consumer: T -> Outcome): (r: Completion<Optional<Obj>>)
    ensures c.Null? ==> r == Normal(Empty)
    ensures c.Ptr? ==> (r == Normal(Empty) <==> consumer(c.target) == Completed)
    ensures r.Normal? && r.value.Of? <==>
              c.Ptr? && consumer(c.target).Threw? && IsException(consumer(c.target).thrown)
    ensures r.Normal? && r.value.Of? ==> r.value.value == consumer(c.target).thrown
    ensures r.Abrupt? <==>
              c.Ptr? && consumer(c.target).Threw? && !IsException(consumer(c.target).thrown)
    ensures r.Abrupt? ==> r.thrown == consumer(c.target).thrown
  {
    if c.Null? then Normal(Empty)
    else match consumer(c.target)
      case Completed => Normal(Empty)
      case Threw(e) => if IsException(e) then Normal(Of(e)) else Abrupt(e)
  }

  /** On a null target the consumer is never consulted: any two consumers give the same result. */
  lemma TryDoIgnoresConsumerOnNull<T>(f: T -> Outcome, g: T -> Outcome)
    ensures TryDo(Null, f) == TryDo(Null, g) == Normal(Empty)
  {
  }

  /** `String.valueOf(Object)`: "null" for a null reference, otherwise the object's `toString()`. */
  function StringValueOf(v: Ref<Obj>): (s: string)
    ensures v.Null? ==> s == "null"
    ensures v.Ptr? ==> s == v.target.stringForm
  {
    if v.Null? then "null" else v.target.stringForm
  }

  /** `Util.nullToEmpty`: the empty string for null, the string form otherwise. */
  function NullToEmpty(v: Ref<Obj>): (s: string)
    ensures v.Null? ==> s == ""
    ensures v.Ptr? ==> s == StringValueOf(v) && s == v.target.stringForm
  {
    if v.Null? then "" else StringValueOf(v)
  }

  /** A form parameter: its name and its (non-null) value. */
  datatype FormPart = FormPart(name: string, value: Obj)

  /** `org.apache.http.message.BasicNameValuePair` */
  datatype NameValuePair = NameValuePair(name: string, value: string)

  /** `Util.getList`: one name/value pair per part, in iteration order, the
   *  value being the part value's string form. */
  method GetList(parameters: seq<FormPart>) returns (result: seq<NameValuePair>)
    ensures |result| == |parameters|
    ensures forall i :: 0 <= i < |result| ==>
              result[i].name == parameters[i].name && result[i].value == parameters[i].value.stringForm
  {
    result := [];
    for i := 0 to |parameters|
      invariant |result| == i
      invariant forall j :: 0 <= j < i ==>
                  result[j].name == parameters[j].name && result[j].value == parameters[j].value.stringForm
    {
      var entry := parameters[i];
      result := result + [NameValuePair(entry.name, entry.value.stringForm)];
    }
  }

  /** `Stream.flatMap` over a finite stream. */
  function FlatMap<A, B>(xs: seq<A>, f: A -> seq<B>): seq<B>
  {
    if xs == [] then [] else f(xs[0]) + FlatMap(xs[1..], f)
  }

  /** `Util.collectExceptions`: the present exceptions of the arguments, in
   *  argument order. There are as many as there are present arguments, and
   *  the k-th is the value at the k-th present position. */
  function CollectExceptions(ex: seq<Optional<Obj>>): (r: seq<Obj>)
    ensures |r| == |PresentIndices(ex)|
    ensures forall k :: 0 <= k < |r| ==> r[k] == ex[PresentIndices(ex)[k]].value
  {
    StreamsInOrder(ex);
    FlatMap(ex, Stream)
  }

  /** The positions of the present elements of `xs`, in increasing order:
   *  an independent description of what survives the flattening. */
  function PresentIndices<T>(xs: seq<Optional<T>>): (idx: seq<nat>)
    ensures forall k :: 0 <= k < |idx| ==> idx[k] < |xs| && xs[idx[k]].Of?
    ensures forall k, l :: 0 <= k < l < |idx| ==> idx[k] < idx[l]
    ensures forall i :: 0 <= i < |xs| && xs[i].Of? ==> i in idx
  {
    if xs == [] then []
    else
      var n := |xs| - 1;
      PresentIndices(xs[..n]) + (if xs[n].Of? then [n] else [])
  }

  lemma {:induction false} FlatMapAppend<A, B>(xs: seq<A>, ys: seq<A>, f: A -> seq<B>)
    ensures FlatMap(xs + ys, f) == FlatMap(xs, f) + FlatMap(ys, f)
  {
    if xs == [] {
      assert xs + ys == ys;
    } else {
      assert (xs + ys)[0] == xs[0];
      assert (xs + ys)[1..] == xs[1..] + ys;
      FlatMapAppend(xs[1..], ys, f);
    }
  }

  /** Flattening distributes over concatenation of the argument lists. */
  lemma CollectExceptionsAppend(xs: seq<Optional<Obj>>, ys: seq<Optional<Obj>>)
    ensures CollectExceptions(xs + ys) == CollectExceptions(xs) + CollectExceptions(ys)
  {
    FlatMapAppend(xs, ys, Stream);
  }

  lemma CollectExceptionsSingle(x: Optional<Obj>)
    ensures CollectExceptions([x]) == Stream(x)
  {
    FlatMapSingle(x);
  }

  lemma FlatMapSingle(x: Optional<Obj>)
    ensures FlatMap([x], Stream) == Stream(x)
  {
  }

  /** Flattening the streams of optionals keeps exactly the present values,
   *  in order: the k-th output is the value at the k-th present position. */
  lemma {:induction false} StreamsInOrder(ex: seq<Optional<Obj>>)
    ensures |FlatMap(ex, Stream)| == |PresentIndices(ex)|
    ensures forall k :: 0 <= k < |PresentIndices(ex)| ==>
              FlatMap(ex, Stream)[k] == ex[PresentIndices(ex)[k]].value
  {
    if ex != [] {
      var n := |ex| - 1;
      assert ex == ex[..n] + [ex[n]];
      FlatMapAppend(ex[..n], [ex[n]], Stream);
      FlatMapSingle(ex[n]);
      StreamsInOrder(ex[..n]);
    }
  }

  /** An exception is collected exactly when some argument holds it. */
  lemma CollectExceptionsMembers(ex: seq<Optional<Obj>>, e: Obj)
    ensures e in CollectExceptions(ex) <==> Of(e) in ex
  {
  }

  /** Nothing is collected exactly when every argument is empty. */
  lemma CollectExceptionsEmpty(ex: seq<Optional<Obj>>)
    ensures CollectExceptions(ex) == [] <==> forall i :: 0 <= i < |ex| ==> ex[i] == Empty
  {
    var idx := PresentIndices(ex);
    if idx != [] {
      assert ex[idx[0]].Of?;
    }
    if exists i :: 0 <= i < |ex| && ex[i].Of? {
      var i :| 0 <= i < |ex| && ex[i].Of?;
      assert i in idx;
    }
  }
}
