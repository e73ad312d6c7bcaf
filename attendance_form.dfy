/**
 * The attendance-code form: a code is three ASCII digits, the hint under the
 * input is coloured by what has been typed, an invalid code is refused
 * without a request, and the server's answer becomes a message marked ✅ or ❌.
 */
module AttendanceForm {
  import opened Common
  import opened ClientAuth

  /** `/^\d{3}$/.test(code)`: exactly three ASCII digits. */
  predicate ValidCode(code: string)
  {
    |code| == 3 && AllDigits(code)
  }

  /** The valid codes are exactly the zero-padded numbers below one thousand that the brute-force tries. */
  lemma ValidCodeIsPadded(code: string, n: nat)
    ensures ValidCode(code) ==> DigitsValue(code) < 1000 && Pad3(DigitsValue(code)) == code
    ensures n < 1000 ==> ValidCode(Pad3(n))
  {
    if ValidCode(code) {
      var d0, d1, d2 := DigitValue(code[0]), DigitValue(code[1]), DigitValue(code[2]);
      assert code[..2][..1] == code[..1] && code[..1][..0] == [];
      assert DigitsValue(code[..1]) == d0;
      assert DigitsValue(code[..2]) == d0 * 10 + d1;
      var v := DigitsValue(code);
      assert v == d0 * 100 + d1 * 10 + d2;
      assert v / 100 == d0 && v % 100 / 10 == d1 && v % 100 % 10 == d2;
      var p := Pad3(v);
      assert p[0] == DigitChar(d0) == code[0];
      assert p[1] == DigitChar(d1) == code[1];
      assert p[2] == DigitChar(d2) == code[2];
    }
  }

  const DescBase := "attendance-form-desc"

  /** The class of the hint under the input. */
  function DescClass(code: string): string
  {
    if |code| == 0 then DescBase + " neutral"
    else if ValidCode(code) then DescBase + " success"
    else DescBase + " error"
  }

  /** Neutral exactly for an empty input, success exactly for a valid code, error for anything else typed. */
  lemma DescClassMeaning(code: string)
    ensures DescClass(code) == DescBase + " neutral" <==> code == ""
    ensures DescClass(code) == DescBase + " success" <==> ValidCode(code)
    ensures DescClass(code) == DescBase + " error" <==> code != "" && !ValidCode(code)
  {
    assert (DescBase + " neutral")[21] == 'n' && (DescBase + " success")[21] == 's' && (DescBase + " error")[21] == 'e';
  }

  const InvalidCode := "❌ 출석 코드는 숫자 3자리여야 합니다."
  const NoResponse := "❌ 서버로부터 응답이 없습니다."
  const RequestFailed := "출석 요청에 실패했습니다."
  const BruteRequestFailed := "❌ 브루트포스 출석 요청에 실패했습니다."
  const BruteFailed := "브루트포스 출석 실패"

  /** A template-literal `${message}`: a missing message prints as `undefined`. */
  function Shown(message: Option<string>): string
  {
    if message.Some? then message.value else "undefined"
  }

  /** The message after a submitted code. */
  function SubmitMessage(reply: Fetched<Envelope>): string
  {
    match reply
    case Threw => RequestFailed
    case Returned(None) => NoResponse
    case Returned(Some(r)) => (if r.status == "success" then "✅ " else "❌ ") + Shown(r.message)
  }

  /** The message after the brute-force request. */
  function BruteMessage(reply: Fetched<Envelope>): string
  {
    match reply
    case Threw => BruteRequestFailed
    case Returned(Some(r)) =>
      if r.status == "success" then "✅ " + Shown(r.message)
      else "❌ " + (if Truthy(r.message) then r.message.value else BruteFailed)
    case Returned(None) => "❌ " + BruteFailed
  }

  /** The class of the message paragraph: success exactly when the message starts with ✅. */
  function MessageClass(message: string): string
  {
    "attendance-form-msg" + (if StartsWith(message, "✅") then " success" else " error")
  }

  /**
   * Both messages are shown as a success exactly when the server answered
   * `success`; a missing answer and a failed request are errors.
   */
  lemma MessageClassMeaning(reply: Fetched<Envelope>)
    ensures var ok := reply.Returned? && reply.json.Some? && reply.json.value.status == "success";
      (MessageClass(SubmitMessage(reply)) == "attendance-form-msg success" <==> ok)
      && (MessageClass(BruteMessage(reply)) == "attendance-form-msg success" <==> ok)
  {
    var ok := reply.Returned? && reply.json.Some? && reply.json.value.status == "success";
    assert ("attendance-form-msg" + " error")[20] == 'e';
    assert ("attendance-form-msg" + " success")[20] == 's';
    var m, b := SubmitMessage(reply), BruteMessage(reply);
    if ok {
      assert m[..1] == "✅" && b[..1] == "✅";
    } else {
      assert m[0] != '✅' && b[0] != '✅';
    }
  }

  /** The form's state. */
  class Form {
    var authCode: string
    var localMessage: string
    var loading: bool
    var bruteLoading: bool

    constructor ()
      ensures authCode == "" && localMessage == "" && !loading && !bruteLoading
    {
      authCode, localMessage, loading, bruteLoading := "", "", false, false;
    }

    /** The effect on `disabled`: a disabled form forgets the typed code. */
    method SetDisabled(disabled: bool)
      modifies this`authCode
      ensures authCode == (if disabled then "" else old(authCode))
    {
      if disabled {
        authCode := "";
      }
    }

    /**
     * `handleSubmit`: an invalid code sets the error message and sends
     * nothing; a valid one is sent and the answer becomes the message.
     */
    method Submit(reply: Fetched<Envelope>) returns (requested: bool)
      modifies this`localMessage, this`loading
      ensures requested <==> ValidCode(authCode)
      ensures localMessage == (if requested then SubmitMessage(reply) else InvalidCode)
      ensures loading == (if requested then false else old(loading))
    {
      localMessage := "";
      if !ValidCode(authCode) {
        localMessage := InvalidCode;
        return false;
      }
      loading := true;
      localMessage := SubmitMessage(reply);
      loading := false;
      return true;
    }

    /** `handleBruteforce`: nothing unless confirmed; then the answer becomes the message. */
    method Bruteforce(confirmed: bool, reply: Fetched<Envelope>) returns (requested: bool)
      modifies this`localMessage, this`bruteLoading
      ensures requested == confirmed
      ensures !confirmed ==> localMessage == old(localMessage) && bruteLoading == old(bruteLoading)
      ensures confirmed ==> localMessage == BruteMessage(reply) && !bruteLoading
    {
      if !confirmed {
        return false;
      }
      bruteLoading := true;
      localMessage := "";
      localMessage := BruteMessage(reply);
      bruteLoading := false;
      return true;
    }
  }
}
