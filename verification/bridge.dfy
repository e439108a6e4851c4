/**
  The inbound half of the error bridge: `check_err` turns the nullable error
  handle a native call returned into the crate's `Result`. (The outbound half,
  `call_checked!`, lives with the entry-point shim in the `Backend` module.)
 */
module Bridge {
  import opened Native
  import Decimal

  /**
    The fixed text every converted error starts with. It names
    `TRITONBACKEND_ModelInstanceModel` whichever native call actually failed.
   */
  const CODE_PREFIX: string := "TRITONBACKEND_ModelInstanceModel returned error code "

  /** The message `check_err` gives an error whose handle reports `code`. */
  function CodeMessage(code: u32): string {
    CODE_PREFIX + Decimal.Show(code)
  }

  /**
    `check_err`: null is success; a non-null handle becomes an `Err` whose
    message is the fixed prefix followed by the handle's numeric code, from
    which the code can be read back. The host's own message is not kept.
   */
  function CheckErr(p: ErrorPtr): (r: Res<()>)
    ensures r.Ok? <==> p.Null?
    ensures !r.Panic?
    ensures r.Err? ==>
      && |r.error.message| > |CODE_PREFIX|
      && r.error.message[..|CODE_PREFIX|] == CODE_PREFIX
      && Decimal.AllDigits(r.error.message[|CODE_PREFIX|..])
      && Decimal.Parse(r.error.message[|CODE_PREFIX|..]) == p.error.code
  {
    if p.Ptr? then
      var m := CodeMessage(p.error.code);
      assert m[|CODE_PREFIX|..] == Decimal.Show(p.error.code);
      Decimal.ParseShow(p.error.code);
      Err(Error(m))
    else
      Ok(())
  }

  /**
    The idiom `check_err(call(.., &mut out))?; Ok(out)` used by every accessor:
    the out-parameter is returned only when the call succeeded.
   */
  function Checked<T>(n: Native<T>): (r: Res<T>)
    ensures r.Ok? <==> n.Returned?
    ensures r.Ok? ==> r.value == n.value
    ensures r.Err? ==> Err(r.error) == CheckErr(n.Status())
    ensures !r.Panic?
  {
    var _ :- CheckErr(n.Status());
    Ok(n.value)
  }

  /** Two failures are told apart by `check_err` exactly when their codes differ. */
  lemma CheckErrSeparatesCodes(a: NativeError, b: NativeError)
    ensures CheckErr(Ptr(a)) == CheckErr(Ptr(b)) <==> a.code == b.code
  {
    if CheckErr(Ptr(a)) == CheckErr(Ptr(b)) {
      assert CodeMessage(a.code) == CodeMessage(b.code);
      assert CodeMessage(a.code)[|CODE_PREFIX|..] == Decimal.Show(a.code);
      assert CodeMessage(b.code)[|CODE_PREFIX|..] == Decimal.Show(b.code);
      Decimal.ShowInjective(a.code, b.code);
    }
  }
}
