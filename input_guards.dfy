/** The checks that gate the two actions: both handlers return early with a
    toast when a required field is blank after trimming, and the action button
    is disabled while loading or under the same condition. */
module InputGuards {
  import opened JsBuiltins

  datatype Mode = EncryptMode | DecryptMode

  datatype GuardOutcome = Proceed | Rejected(toast: JsString)

  /** A field counts as filled in when it has a code unit that is not whitespace. */
  predicate HasContent(s: JsString)
  {
    exists k :: 0 <= k < |s| && !IsWhitespace(s[k])
  }

  const EncryptToast := Str("Please enter both message and password")
  const DecryptToast := Str("Please enter both message ID and password")

  /** The start of `handleEncrypt`: encryption proceeds exactly when the message
      and the password each hold something other than whitespace. The password
      itself is used untrimmed. */
  function EncryptGuard(message: JsString, password: JsString): (r: GuardOutcome)
    ensures r == Proceed <==> HasContent(message) && HasContent(password)
    ensures r.Rejected? ==> r.toast == EncryptToast
  {
    BlankIffAllWhitespace(message);
    BlankIffAllWhitespace(password);
    if IsBlank(message) || IsBlank(password) then Rejected(EncryptToast)
    else Proceed
  }

  /** The start of `handleDecrypt`: decryption proceeds exactly when the message
      id and the password each hold something other than whitespace. */
  function DecryptGuard(messageId: JsString, password: JsString): (r: GuardOutcome)
    ensures r == Proceed <==> HasContent(messageId) && HasContent(password)
    ensures r.Rejected? ==> r.toast == DecryptToast
  {
    BlankIffAllWhitespace(messageId);
    BlankIffAllWhitespace(password);
    if IsBlank(messageId) || IsBlank(password) then Rejected(DecryptToast)
    else Proceed
  }

  /** The guard of the handler the button calls in the given mode. */
  function ActionGuard(mode: Mode, message: JsString, messageId: JsString, password: JsString): GuardOutcome
  {
    match mode
    case EncryptMode => EncryptGuard(message, password)
    case DecryptMode => DecryptGuard(messageId, password)
  }

  /** The button's `disabled` expression: the button is disabled exactly while
      loading or when its handler would reject the input, so an enabled button
      always passes the guard. */
  function ButtonDisabled(loading: bool, mode: Mode, message: JsString, messageId: JsString, password: JsString): (b: bool)
    ensures b <==> loading || ActionGuard(mode, message, messageId, password).Rejected?
  {
    loading ||
    (if mode == EncryptMode then IsBlank(message) || IsBlank(password)
     else IsBlank(messageId) || IsBlank(password))
  }
}
