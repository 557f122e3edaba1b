/**
 * The controllers' ResponseModel: a mutable reply object with a status that
 * starts unset and is set by success(...) or error(...), an optional message
 * and optional data.  Its Java implementation (SimpleResponseModel) is not part
 * of this model; this class is the abstract record the controllers rely on.
 */
module ResponseModels {
  import opened Wrappers

  datatype Status = Unset | Succeeded | Failed

  /** A snapshot of a ResponseModel, used to specify what a handler returns. */
  datatype Response<T> = Response(status: Status, message: Option<string>, data: Option<T>)

  /** The reply of a freshly constructed ResponseModel. */
  function Initial<T>(): (r: Response<T>)
    ensures r.status == Unset && r.message == None && r.data == None
  {
    Response(Unset, None, None)
  }

  class ResponseModel<T> {
    var status: Status
    var message: Option<string>
    var data: Option<T>

    function View(): Response<T>
      reads this
    {
      Response(status, message, data)
    }

    constructor ()
      ensures View() == Initial()
    {
      status, message, data := Unset, None, None;
    }

    /** success(): marks the reply successful, message and data untouched. */
    method Succeed()
      modifies this
      ensures View() == old(View()).(status := Succeeded)
    {
      status := Succeeded;
    }

    /** success(msg): marks the reply successful and sets the message (None for null). */
    method SucceedWith(msg: Option<string>)
      modifies this
      ensures View() == old(View()).(status := Succeeded, message := msg)
    {
      status, message := Succeeded, msg;
    }

    /** error(): marks the reply failed, message and data untouched. */
    method Fail()
      modifies this
      ensures View() == old(View()).(status := Failed)
    {
      status := Failed;
    }

    /** error(msg): marks the reply failed and sets the message (None for null). */
    method FailWith(msg: Option<string>)
      modifies this
      ensures View() == old(View()).(status := Failed, message := msg)
    {
      status, message := Failed, msg;
    }

    method SetMessage(msg: Option<string>)
      modifies this
      ensures View() == old(View()).(message := msg)
    {
      message := msg;
    }

    method SetData(d: T)
      modifies this
      ensures View() == old(View()).(data := Some(d))
    {
      data := Some(d);
    }
  }
}
