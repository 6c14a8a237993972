/**
 * Return-value wrappers shared by every module.
 *
 * The Python code signals failure by raising an exception and signals an
 * undefined numeric result with NaN or infinity. The model turns both into
 * ordinary values.
 */
module Wrappers {

  /** `None` stands for NaN wherever a calculator may return `np.nan`. */
  datatype Option<T> = None | Some(value: T)

  /** The Python exception classes raised by the modelled code. */
  datatype Error = TypeError | KeyError | ValueError | AttributeError | ZeroDivisionError | OverflowError

  /** The outcome of a call that may raise. */
  datatype Result<T> = Ok(value: T) | Err(error: Error)

  /** A real number or positive infinity (`np.inf`). */
  datatype Extended = Finite(x: real) | Infinity

  /** A Python argument, seen only as far as the modelled code inspects it. */
  datatype PyObject =
    | PyNum(x: real)                                          // anything `float()` accepts
    | PyDict(entries: map<string, PyObject>, plain: bool)     // plain: its class is exactly `dict`
    | PyOther                                                 // None, a list, a non-numeric string, ...

  /** Python's `float(v)`: TypeError for everything that is not a number. */
  function ToFloat(v: PyObject): (r: Result<real>)
    ensures r.Ok? <==> v.PyNum?
    ensures r.Ok? ==> r.value == v.x
    ensures r.Err? ==> r.error == TypeError
  {
    if v.PyNum? then Ok(v.x) else Err(TypeError)
  }
}
