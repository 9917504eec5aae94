/** The GreetingForm component: the draft message, the submit guard that
    sends the trimmed draft to `writeGreeting`, the submit button's disabled
    state, the connected account's abbreviated address and the text shown
    for a failed transaction. Wallet state (`isConnected`, `address`) and
    the write's progress (`isWriting`, `isConfirming`, `isConfirmed`) come
    from wallet hooks and are parameters here. */
module GreetingForm {
  import opened Util
  import opened Strings
  import opened Ledger
  import GreetingList

  const UNKNOWN_ERROR: string := "Unknown error"
  const USER_REJECTED: string := "user rejected"
  const INSUFFICIENT_FUNDS: string := "insufficient funds"
  const REJECTED_TEXT: string := "Transaction was rejected"
  const INSUFFICIENT_TEXT: string := "Insufficient ETH for gas"
  /** Longer error messages are cut to this many characters and "...". */
  const MAX_ERROR_LENGTH: nat := 100

  /** The component's own state: the draft in the textarea. */
  class GreetingFormState {
    var message: string

    /** A mounted form starts with an empty draft. */
    constructor ()
      ensures message == ""
    {
      message := "";
    }

    /** The textarea's `onChange`: the draft becomes the edited text. */
    method SetMessage(text: string)
      modifies this
      ensures message == text
    {
      message := text;
    }

    /** `handleSubmit`: a blank draft sends nothing; otherwise the argument
        of `writeGreeting` is the trimmed draft, which has no whitespace at
        either end and always passes the board's rule on messages. The
        draft itself is left as it is. */
    method HandleSubmit() returns (write: Option<string>)
      ensures write.None? <==> AllWhitespace(message)
      ensures write.Some? ==> write.value == Trim(message)
      ensures write.Some? ==>
        AcceptsMessage(write.value)
        && !IsWhitespace(write.value[0]) && !IsWhitespace(write.value[|write.value| - 1])
    {
      var trimmed := Trim(message);
      TrimEmptyIffAllWhitespace(message);
      if trimmed == [] {
        return None;
      }
      write := Some(trimmed);
    }

    /** The confirmation effect: once the transaction is confirmed the
        draft is cleared; before that it is kept. */
    method ConfirmationEffect(isConfirmed: bool)
      modifies this
      ensures message == if isConfirmed then "" else old(message)
    {
      if isConfirmed {
        message := "";
      }
    }
  }

  /** The submit button's `disabled`: no wallet, a blank draft, or a write
      waiting for the wallet or for its confirmation. */
  function SubmitDisabled(isConnected: bool, message: string, isWriting: bool, isConfirming: bool): (r: bool)
    ensures r <==> !isConnected || AllWhitespace(message) || isWriting || isConfirming
  {
    TrimEmptyIffAllWhitespace(message);
    !isConnected || Trim(message) == "" || isWriting || isConfirming
  }

  /** Whenever the submit button is enabled, the message `handleSubmit`
      sends is one the board accepts. */
  lemma EnabledSubmitIsAccepted(isConnected: bool, message: string, isWriting: bool, isConfirming: bool)
    requires !SubmitDisabled(isConnected, message, isWriting, isConfirming)
    ensures AcceptsMessage(Trim(message))
  {
    TrimEmptyIffAllWhitespace(message);
  }

  /** The connected account's abbreviated address, or "" when there is no
      address (an empty address is falsy too). */
  function ConnectedShortAddress(address: Option<Address>): (r: string)
    ensures r == "" <==> address.None? || address.value == ""
    ensures address.Some? && address.value != "" ==> r == GreetingList.ShortAddress(address.value)
  {
    if address.Some? && address.value != "" then GreetingList.ShortAddress(address.value) else ""
  }

  /** `getErrorMessage`: a rejection in the wallet wins over missing funds,
      an empty message reads "Unknown error", and any other message is
      shown whole up to `MAX_ERROR_LENGTH` characters and cut to that many
      plus "..." beyond, so the text is never empty and never longer than
      `MAX_ERROR_LENGTH + 3`. */
  function GetErrorMessage(errorMessage: string): (r: string)
    ensures r != [] && |r| <= MAX_ERROR_LENGTH + 3
    ensures errorMessage == "" ==> r == UNKNOWN_ERROR
    ensures Contains(errorMessage, USER_REJECTED) ==> r == REJECTED_TEXT
    ensures !Contains(errorMessage, USER_REJECTED) && Contains(errorMessage, INSUFFICIENT_FUNDS) ==>
      r == INSUFFICIENT_TEXT
    ensures !Contains(errorMessage, USER_REJECTED) && !Contains(errorMessage, INSUFFICIENT_FUNDS) ==>
      (|errorMessage| > MAX_ERROR_LENGTH ==> r == errorMessage[..MAX_ERROR_LENGTH] + "...")
      && (0 < |errorMessage| <= MAX_ERROR_LENGTH ==> r == errorMessage)
  {
    assert UNKNOWN_ERROR[0] != USER_REJECTED[0];
    var message := if errorMessage == "" then UNKNOWN_ERROR else errorMessage;
    if Contains(message, USER_REJECTED) then REJECTED_TEXT
    else if Contains(message, INSUFFICIENT_FUNDS) then INSUFFICIENT_TEXT
    else if |message| > MAX_ERROR_LENGTH then message[..MAX_ERROR_LENGTH] + "..."
    else message
  }
}
