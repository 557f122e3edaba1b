/**
 * LiveCategoryController: the live-room category page, the next serial
 * number for a new category, and the first checks of adding a category.
 * The category service is an input: its answer to findMaxSerialNo is given.
 */
module LiveCategoryController {
  import opened Wrappers
  import opened ResponseModels

  const CategoryView := "live/category"
  const UploadFailedText := "上传失败"

  /** toRoomCategory: the category page; its try block is empty, so nothing can divert it. */
  function ToRoomCategory(): (view: string)
    ensures view == CategoryView
  {
    CategoryView
  }

  /** What categoryService.findMaxSerialNo does: return an Integer (perhaps null) or throw. */
  datatype SerialQuery = Returned(serialNo: Option<int>) | ServiceThrew

  /** The serial number reported for a maximum of n: never zero, and n itself unless it is zero. */
  function ReportedSerialNo(n: int): (r: int)
    ensures r != 0
    ensures n != 0 ==> r == n
  {
    if n == 0 then 1 else n
  }

  /**
   * The reply of findMaxSerialNo.  A null maximum fails the unboxing in
   * serialNo == 0, which lands in the catch block like a service exception.
   */
  function SerialNoReply(q: SerialQuery): (r: Response<int>)
    ensures r.status != Unset && r.message == None
    ensures r.status == Succeeded <==> q.Returned? && q.serialNo.Some?
    ensures r.status == Succeeded ==> r.data == Some(ReportedSerialNo(q.serialNo.value))
    ensures r.status == Failed ==> r.data == None
  {
    match q
    case Returned(Some(n)) => Response(Succeeded, None, Some(ReportedSerialNo(n)))
    case _ => Response(Failed, None, None)
  }

  /** A reply that reports success never carries serial number 0, and a zero maximum is reported as 1. */
  lemma SerialNoNeverZero(q: SerialQuery)
    ensures SerialNoReply(q).status == Succeeded ==> SerialNoReply(q).data.value != 0
    ensures q == Returned(Some(0)) ==> SerialNoReply(q) == Response(Succeeded, None, Some(1))
  {
  }

  method FindMaxSerialNo(q: SerialQuery) returns (model: ResponseModel<int>)
    ensures fresh(model) && model.View() == SerialNoReply(q)
  {
    model := new ResponseModel<int>();
    match q {
      case Returned(Some(n)) =>
        var serialNo := n;
        if serialNo == 0 {
          serialNo := 1;
        }
        model.SetData(serialNo);
        model.Succeed();
      case Returned(None) =>
        // unboxing null throws
        model.Fail();
      case ServiceThrew =>
        model.Fail();
    }
  }

  /** The multipart file of the request; only whether it is present matters here. */
  datatype UploadedFile = UploadedFile(originalFilename: string)

  /** The category as bound from the request; of its fields only enabled is touched. */
  class LiveCategory {
    var enabled: bool

    constructor (enabled: bool)
      ensures this.enabled == enabled
    {
      this.enabled := enabled;
    }
  }

  /** The enabled flag after addLiveCategory: a null or zero request flag disables the category. */
  function EnabledAfter(enabledNum: Option<int>, bound: bool): (b: bool)
    ensures enabledNum == None || enabledNum == Some(0) ==> !b
    ensures enabledNum.Some? && enabledNum.value != 0 ==> b == bound
  {
    if enabledNum == None || enabledNum == Some(0) then false else bound
  }

  /** The reply of addLiveCategory: an upload failure without a file, otherwise untouched. */
  function AddCategoryReply(file: Option<UploadedFile>): (r: Response<int>)
    ensures file.None? ==> r == Response(Failed, Some(UploadFailedText), None)
    ensures file.Some? ==> r.status == Unset && r.message == None && r.data == None
  {
    if file.None? then Response(Failed, Some(UploadFailedText), None) else Initial()
  }

  /**
   * addLiveCategory.  Without a file the category is left as it is; with
   * one, only the enabled flag may change and the reply is never marked
   * (whatever follows throws is swallowed).
   */
  method AddLiveCategory(file: Option<UploadedFile>, category: LiveCategory, enabledNum: Option<int>)
    returns (model: ResponseModel<int>)
    modifies category
    ensures fresh(model) && model.View() == AddCategoryReply(file)
    ensures file.None? ==> category.enabled == old(category.enabled)
    ensures file.Some? ==> category.enabled == EnabledAfter(enabledNum, old(category.enabled))
  {
    model := new ResponseModel<int>();
    if file.None? {
      model.SetMessage(Some(UploadFailedText));
      model.Fail();
      return;
    }
    if enabledNum == None || enabledNum == Some(0) {
      category.enabled := false;
    }
    // reading the upload directory setting and logging it change nothing here
  }
}
