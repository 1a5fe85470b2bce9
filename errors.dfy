/**
 * The assembler's fatal conditions. In the program each one prints a message
 * and exits (`asm_assert`) or aborts (the `assert` in `Array::push`); here each
 * is a value that ends the computation.
 */
module Errors {

  datatype Error =
    | MalformedConstant     // "malformed constant"
    | OperandOutOfRange     // "argument needs too many bits"
    | InvalidRegister       // "not a valid register"
    | ArityMismatch         // "too many args"
    | LabelNotFound         // "label not found"
    | DuplicateLabel        // "duplicate label"
    | LabelBufferFull       // "not enough space left in the label name buffer"
    | CapacityExceeded      // the capacity assert of Array::push
    | AddressOutOfRange     // a ROM write outside the 1024-byte image

  datatype Result<T> = Ok(value: T) | Err(error: Error)
  {
    predicate IsFailure() { Err? }

    function PropagateFailure<U>(): Result<U>
      requires Err?
    {
      Err(error)
    }

    function Extract(): T
      requires Ok?
    {
      value
    }
  }

  datatype Option<T> = None | Some(value: T)

  /** A loop that runs its steps in order and stops at the first that
      fails: the values of all steps, or the first error. */
  function Collect<T>(rs: seq<Result<T>>): Result<seq<T>>
    decreases |rs|
  {
    if rs == [] then Ok([])
    else
      var vs :- Collect(rs[..|rs| - 1]);
      var v :- rs[|rs| - 1];
      Ok(vs + [v])
  }

  /** The loop succeeds exactly when every step does, with the steps'
      values in order. */
  lemma {:induction false} CollectOk<T>(rs: seq<Result<T>>)
    ensures Collect(rs).Ok? <==> forall k :: 0 <= k < |rs| ==> rs[k].Ok?
    ensures Collect(rs).Ok? ==> |Collect(rs).value| == |rs|
    ensures Collect(rs).Ok? ==> forall k :: 0 <= k < |rs| ==> Collect(rs).value[k] == rs[k].value
    decreases |rs|
  {
    if rs != [] {
      var init := rs[..|rs| - 1];
      CollectOk(init);
      assert forall k :: 0 <= k < |init| ==> init[k] == rs[k];
    }
  }

  /** A failing loop reports the error of its first failing step. */
  lemma {:induction false} CollectErr<T>(rs: seq<Result<T>>)
    requires Collect(rs).Err?
    ensures exists k :: 0 <= k < |rs| && rs[k].Err? && Collect(rs).error == rs[k].error
                        && forall j :: 0 <= j < k ==> rs[j].Ok?
    decreases |rs|
  {
    var init := rs[..|rs| - 1];
    assert forall k :: 0 <= k < |init| ==> init[k] == rs[k];
    if Collect(init).Err? {
      CollectErr(init);
    } else {
      CollectOk(init);
      assert rs[|rs| - 1].Err?;
    }
  }

  /** One more step after a prefix that succeeded. */
  lemma CollectNext<T>(rs: seq<Result<T>>, i: nat)
    requires i < |rs| && Collect(rs[..i]).Ok?
    ensures Collect(rs[..i + 1])
         == if rs[i].Ok? then Ok(Collect(rs[..i]).value + [rs[i].value]) else Err(rs[i].error)
  {
    assert rs[..i + 1][..i] == rs[..i];
  }

  /** Once a prefix fails, the whole loop fails with the same error. */
  lemma {:induction false} CollectPrefixFails<T>(rs: seq<Result<T>>, n: nat)
    requires n <= |rs| && Collect(rs[..n]).Err?
    ensures Collect(rs) == Collect(rs[..n])
    decreases |rs|
  {
    if n < |rs| {
      var init := rs[..|rs| - 1];
      assert init[..n] == rs[..n];
      CollectPrefixFails(init, n);
    } else {
      assert rs[..n] == rs;
    }
  }
}
