/**
 * The interactive input of the collection script, with every prompt answer
 * passed in and every exit turned into an error result: a year, a first
 * username, and further usernames for as long as the user answers yes.
 */
module Input {
  import opened Wrappers

  /** Why the script would exit with status 1. */
  datatype InputError =
    | YearRequired
    | InvalidYear(currentYear: int)
    | UsernameRequired
    | InvalidYesNo

  datatype UserInput = UserInput(year: int, usernames: seq<string>)

  const FirstYear: int := 2000

  // ---------------------------------------------------------------------
  // Text helpers with JavaScript's meaning

  /** The characters `String.prototype.trim` removes: white space and line terminators. */
  const Whitespace: set<char> := {
    '\t', '\n', '\U{000B}', '\U{000C}', '\r', ' ', '\U{00A0}', '\U{1680}',
    '\U{2000}', '\U{2001}', '\U{2002}', '\U{2003}', '\U{2004}', '\U{2005}',
    '\U{2006}', '\U{2007}', '\U{2008}', '\U{2009}', '\U{200A}',
    '\U{2028}', '\U{2029}', '\U{202F}', '\U{205F}', '\U{3000}', '\U{FEFF}'
  }

  predicate IsWhitespace(c: char) {
    c in Whitespace
  }

  predicate AllWhitespace(s: string) {
    forall i :: 0 <= i < |s| ==> IsWhitespace(s[i])
  }

  /** Neither the first nor the last character is white space. */
  predicate Unpadded(s: string) {
    |s| == 0 || (!IsWhitespace(s[0]) && !IsWhitespace(s[|s| - 1]))
  }

  /** `s` is `core` with only white space added around it. */
  predicate PaddedForm(s: string, core: string) {
    exists k :: 0 <= k <= |s| - |core| && s[k..k + |core|] == core
                && AllWhitespace(s[..k]) && AllWhitespace(s[k + |core|..])
  }

  function TrimStart(s: string): string
  {
    if |s| > 0 && IsWhitespace(s[0]) then TrimStart(s[1..]) else s
  }

  function TrimEnd(s: string): string
  {
    if |s| > 0 && IsWhitespace(s[|s| - 1]) then TrimEnd(s[..|s| - 1]) else s
  }

  /** `String.prototype.trim`: the input with surrounding white space removed. */
  function Trim(s: string): string
  {
    TrimEnd(TrimStart(s))
  }

  /** TrimStart drops exactly the leading white space. */
  lemma {:induction false} TrimStartDropsLeading(s: string)
    ensures |TrimStart(s)| <= |s| && TrimStart(s) == s[|s| - |TrimStart(s)|..]
    ensures AllWhitespace(s[..|s| - |TrimStart(s)|])
    ensures |TrimStart(s)| == 0 || !IsWhitespace(TrimStart(s)[0])
  {
    if |s| > 0 && IsWhitespace(s[0]) {
      var t := s[1..];
      TrimStartDropsLeading(t);
      assert TrimStart(s) == TrimStart(t);
      var n := |s| - |TrimStart(s)|;
      assert n == 1 + (|t| - |TrimStart(t)|);
      assert s[..n] == [s[0]] + t[..n - 1];
      assert s[n..] == t[n - 1..];
    }
  }

  /** TrimEnd drops exactly the trailing white space. */
  lemma {:induction false} TrimEndDropsTrailing(s: string)
    ensures |TrimEnd(s)| <= |s| && TrimEnd(s) == s[..|TrimEnd(s)|]
    ensures AllWhitespace(s[|TrimEnd(s)|..])
    ensures |TrimEnd(s)| == 0 || !IsWhitespace(TrimEnd(s)[|TrimEnd(s)| - 1])
  {
    if |s| > 0 && IsWhitespace(s[|s| - 1]) {
      var init := s[..|s| - 1];
      TrimEndDropsTrailing(init);
      var n := |TrimEnd(s)|;
      assert s[n..] == init[n..] + [s[|s| - 1]];
    }
  }

  /** Where the trimmed text sits inside its input. */
  lemma TrimWindow(s: string)
    ensures |TrimStart(s)| <= |s|
    ensures var k := |s| - |TrimStart(s)|;
            && k + |Trim(s)| <= |s| && s[k..k + |Trim(s)|] == Trim(s)
            && AllWhitespace(s[..k]) && AllWhitespace(s[k + |Trim(s)|..])
            && Unpadded(Trim(s))
  {
    var t := TrimStart(s);
    var r := TrimEnd(t);
    TrimStartDropsLeading(s);
    TrimEndDropsTrailing(t);
    var k := |s| - |t|;
    assert s[k..k + |r|] == r;
    assert s[k + |r|..] == t[|r|..];
  }

  /** Trim leaves an unpadded text that the input surrounds with white space only. */
  lemma TrimRemovesPadding(s: string)
    ensures Unpadded(Trim(s))
    ensures PaddedForm(s, Trim(s))
  {
    TrimWindow(s);
    var k := |s| - |TrimStart(s)|;
    assert s[k..k + |Trim(s)|] == Trim(s);
  }

  /** Trim gives the empty text exactly for white-space-only input. */
  lemma TrimEmptyIffWhitespace(s: string)
    ensures Trim(s) == "" <==> AllWhitespace(s)
  {
    TrimRemovesPadding(s);
    var r := Trim(s);
    var k :| 0 <= k <= |s| - |r| && s[k..k + |r|] == r
             && AllWhitespace(s[..k]) && AllWhitespace(s[k + |r|..]);
    if r == "" {
      assert s == s[..k] + s[k..];
    } else {
      assert s[k] == r[0];
    }
  }

  function LowerChar(c: char): char {
    if 'A' <= c <= 'Z' then (c as int + 32) as char else c
  }

  /**
   * `String.prototype.toLowerCase` on the ASCII letters. No other character
   * lowers to a letter of `y`, `yes`, `n`, `no` or to white space, so the
   * yes/no decision is the same as with full Unicode case mapping.
   */
  function ToLower(s: string): (r: string)
    ensures |r| == |s|
    ensures forall i :: 0 <= i < |r| ==> !('A' <= r[i] <= 'Z')
    ensures forall i :: 0 <= i < |s| && 'A' <= s[i] <= 'Z' ==>
              'a' <= r[i] <= 'z' && r[i] as int - 'a' as int == s[i] as int - 'A' as int
    ensures forall i :: 0 <= i < |s| && !('A' <= s[i] <= 'Z') ==> r[i] == s[i]
  {
    seq(|s|, i requires 0 <= i < |s| => LowerChar(s[i]))
  }

  // ---------------------------------------------------------------------
  // The three prompt decisions

  /**
   * getYearFromUser: a missing or empty answer is required; an answer that
   * does not parse, or a year outside 2000..currentYear, is invalid.
   */
  function ValidateYear(answer: Option<string>, parse: string -> Option<int>, currentYear: int): (r: Result<int, InputError>)
    ensures r.Success? <==>
              answer.Some? && answer.value != "" && parse(answer.value).Some?
              && FirstYear <= parse(answer.value).value <= currentYear
    ensures r.Success? ==> r.value == parse(answer.value).value && FirstYear <= r.value <= currentYear
    ensures r.Failure? ==> r.error == (if answer.None? || answer.value == "" then YearRequired else InvalidYear(currentYear))
  {
    match answer
    case None => Failure(YearRequired)
    case Some(text) =>
      if text == "" then Failure(YearRequired)
      else
        match parse(text)
        case None => Failure(InvalidYear(currentYear))
        case Some(year) =>
          if year < FirstYear || year > currentYear then Failure(InvalidYear(currentYear))
          else Success(year)
  }

  /**
   * getUsernameFromUser: a missing, empty or white-space-only answer is
   * required; otherwise the trimmed answer is the username.
   */
  function ValidateUsername(answer: Option<string>): (r: Result<string, InputError>)
    ensures r.Failure? <==> answer.None? || AllWhitespace(answer.value)
    ensures r.Failure? ==> r.error == UsernameRequired
    ensures r.Success? ==> |r.value| > 0
  {
    match answer
    case None => Failure(UsernameRequired)
    case Some(text) =>
      var name := Trim(text);
      TrimEmptyIffWhitespace(text);
      if text == "" || name == "" then Failure(UsernameRequired)
      else Success(name)
  }

  /**
   * getYesNoAnswer: the answer, lower-cased and trimmed, must be `y`/`yes`
   * (true) or `n`/`no` (false); anything else, or no answer, is invalid.
   */
  function YesNo(answer: Option<string>): (r: Result<bool, InputError>)
    ensures answer.None? ==> r.Failure?
    ensures r.Failure? ==> r.error == InvalidYesNo
  {
    match answer
    case None => Failure(InvalidYesNo)
    case Some(text) =>
      var a := Trim(ToLower(text));
      if a == "y" || a == "yes" then Success(true)
      else if a == "n" || a == "no" then Success(false)
      else Failure(InvalidYesNo)
  }

  // ---------------------------------------------------------------------
  // Properties of trimming and of the prompt decisions

  /** An accepted username is the answer stripped of its surrounding white space. */
  lemma AcceptedUsernameIsTrimmed(answer: Option<string>)
    requires ValidateUsername(answer).Success?
    ensures |ValidateUsername(answer).value| > 0
    ensures Unpadded(ValidateUsername(answer).value)
    ensures PaddedForm(answer.value, ValidateUsername(answer).value)
  {
    TrimRemovesPadding(answer.value);
  }

  /**
   * Yes means `y` or `yes` and no means `n` or `no`, in any letter case and
   * with any white space around; every other answer is rejected.
   */
  lemma YesNoMeaning(answer: Option<string>)
    ensures YesNo(answer) == Success(true) <==>
              answer.Some? && (PaddedForm(ToLower(answer.value), "y") || PaddedForm(ToLower(answer.value), "yes"))
    ensures YesNo(answer) == Success(false) <==>
              answer.Some? && (PaddedForm(ToLower(answer.value), "n") || PaddedForm(ToLower(answer.value), "no"))
  {
    if answer.Some? {
      var lower := ToLower(answer.value);
      TrimIsUnique(lower, "y");
      TrimIsUnique(lower, "yes");
      TrimIsUnique(lower, "n");
      TrimIsUnique(lower, "no");
    }
  }

  /** White space added around an unpadded core is exactly what trim removes. */
  lemma TrimIsUnique(s: string, core: string)
    requires Unpadded(core)
    ensures Trim(s) == core <==> PaddedForm(s, core)
  {
    if Trim(s) == core {
      TrimRemovesPadding(s);
    }
    if PaddedForm(s, core) {
      var k :| 0 <= k <= |s| - |core| && s[k..k + |core|] == core
               && AllWhitespace(s[..k]) && AllWhitespace(s[k + |core|..]);
      TrimOfWindow(s, k, core);
    }
  }

  lemma TrimOfWindow(s: string, k: nat, core: string)
    requires Unpadded(core)
    requires k + |core| <= |s| && s[k..k + |core|] == core
    requires AllWhitespace(s[..k]) && AllWhitespace(s[k + |core|..])
    ensures Trim(s) == core
  {
    TrimWindow(s);
    PaddingIsUnique(s, k, |core|, |s| - |TrimStart(s)|, |Trim(s)|);
  }

  /** Two whitespace-padded unpadded infixes of the same text coincide. */
  lemma PaddingIsUnique(s: string, k: nat, n: nat, j: nat, m: nat)
    requires k + n <= |s| && j + m <= |s|
    requires Unpadded(s[k..k + n]) && AllWhitespace(s[..k]) && AllWhitespace(s[k + n..])
    requires Unpadded(s[j..j + m]) && AllWhitespace(s[..j]) && AllWhitespace(s[j + m..])
    ensures s[k..k + n] == s[j..j + m]
  {
  }

  /** Trimming twice is trimming once. */
  lemma TrimIdempotent(s: string)
    ensures Trim(Trim(s)) == Trim(s)
  {
    var r := Trim(s);
    TrimRemovesPadding(s);
    assert r[0..0 + |r|] == r && r[..0] == [] && r[|r|..] == [];
    TrimIsUnique(r, r);
  }

  // ---------------------------------------------------------------------
  // The whole dialogue

  /** The answer to the `i`-th prompt; `prompt` returns null once input is exhausted. */
  function Reply(answers: seq<Option<string>>, i: nat): Option<string> {
    if i < |answers| then answers[i] else None
  }

  /** The decision on the k-th username, the answer after the year and k earlier rounds. */
  function UsernameAt(answers: seq<Option<string>>, k: nat): Result<string, InputError> {
    ValidateUsername(Reply(answers, 1 + 2 * k))
  }

  /** The decision on the k-th "add another username?" answer. */
  function AnswerAt(answers: seq<Option<string>>, k: nat): Result<bool, InputError> {
    YesNo(Reply(answers, 2 + 2 * k))
  }

  /**
   * The answers describe a dialogue that collects exactly `n` usernames:
   * answer 0 is the year, answer 1 + 2k the k-th username and answer 2 + 2k
   * the yes/no after it; the first n - 1 of those are yes and the n-th is no.
   */
  predicate Completes(answers: seq<Option<string>>, n: nat) {
    && n >= 1
    && (forall k: nat :: k < n ==> UsernameAt(answers, k).Success?)
    && (forall k: nat :: k < n - 1 ==> AnswerAt(answers, k) == Success(true))
    && AnswerAt(answers, n - 1) == Success(false)
  }

  /** Rounds before `m` went through: their username was valid and the answer was yes. */
  predicate RoundsAccepted(answers: seq<Option<string>>, m: nat) {
    forall k: nat :: k < m ==> UsernameAt(answers, k).Success? && AnswerAt(answers, k) == Success(true)
  }

  /** A decided yes/no question was answered, so it lies within the answers. */
  lemma DecidedAnswerWasGiven(answers: seq<Option<string>>, k: nat)
    requires AnswerAt(answers, k).Success?
    ensures 2 + 2 * k < |answers|
  {
  }

  /** The names decided so far, extended by the next decided name. */
  lemma NamesExtend(answers: seq<Option<string>>, names: seq<string>, next: string)
    requires forall k: nat :: k < |names| ==> UsernameAt(answers, k) == Success(names[k])
    requires UsernameAt(answers, |names|) == Success(next)
    ensures forall k: nat :: k < |names| + 1 ==> UsernameAt(answers, k) == Success((names + [next])[k])
  {
  }

  /** A round with a valid username and a yes extends the accepted rounds. */
  lemma AcceptRound(answers: seq<Option<string>>, m: nat)
    requires RoundsAccepted(answers, m)
    requires UsernameAt(answers, m).Success? && AnswerAt(answers, m) == Success(true)
    ensures RoundsAccepted(answers, m + 1)
  {
  }

  /** A round with a valid username and a no completes the dialogue with m + 1 usernames. */
  lemma FinishRound(answers: seq<Option<string>>, m: nat)
    requires RoundsAccepted(answers, m)
    requires UsernameAt(answers, m).Success? && AnswerAt(answers, m) == Success(false)
    ensures Completes(answers, m + 1)
  {
  }

  /**
   * Round `m` is the first to fail, with error `e`: the rounds before it
   * went through, and either its username or its yes/no answer was rejected.
   */
  predicate FailsAt(answers: seq<Option<string>>, m: nat, e: InputError) {
    && RoundsAccepted(answers, m)
    && if UsernameAt(answers, m).Failure? then e == UsernameAt(answers, m).error
       else AnswerAt(answers, m).Failure? && e == AnswerAt(answers, m).error
  }

  /** Once a round fails, no number of usernames completes the dialogue. */
  lemma FailedRoundCompletesNothing(answers: seq<Option<string>>, m: nat)
    requires RoundsAccepted(answers, m)
    requires UsernameAt(answers, m).Failure? || AnswerAt(answers, m).Failure?
    ensures forall n :: !Completes(answers, n)
  {
  }

  /**
   * getUserInput: the year first, then a username, then yes/no questions,
   * each yes asking for one more username. Succeeds exactly when the
   * answers complete the dialogue, returning the trimmed usernames in
   * entry order.
   */
  method GetUserInput(answers: seq<Option<string>>, parse: string -> Option<int>, currentYear: int)
    returns (r: Result<UserInput, InputError>)
    ensures r.Success? <==>
              ValidateYear(Reply(answers, 0), parse, currentYear).Success? && exists n :: Completes(answers, n)
    ensures r.Success? ==>
              && r.value.year == ValidateYear(Reply(answers, 0), parse, currentYear).value
              && Completes(answers, |r.value.usernames|)
              && forall k: nat :: k < |r.value.usernames| ==> UsernameAt(answers, k) == Success(r.value.usernames[k])
    ensures ValidateYear(Reply(answers, 0), parse, currentYear).Failure? ==>
              r == Failure(ValidateYear(Reply(answers, 0), parse, currentYear).error)
    ensures ValidateYear(Reply(answers, 0), parse, currentYear).Success? && r.Failure? ==>
              exists m: nat :: FailsAt(answers, m, r.error)
  {
    var year := ValidateYear(Reply(answers, 0), parse, currentYear);
    if year.Failure? {
      return Failure(year.error);
    }
    var first := UsernameAt(answers, 0);
    if first.Failure? {
      FailedRoundCompletesNothing(answers, 0);
      assert FailsAt(answers, 0, first.error);
      return Failure(first.error);
    }
    var usernames := [first.value];
    var more := AnswerAt(answers, 0);
    while more == Success(true)
      invariant |usernames| >= 1
      invariant RoundsAccepted(answers, |usernames| - 1)
      invariant more == AnswerAt(answers, |usernames| - 1)
      invariant forall k: nat :: k < |usernames| ==> UsernameAt(answers, k) == Success(usernames[k])
      decreases |answers| - 2 * |usernames|
    {
      AcceptRound(answers, |usernames| - 1);
      DecidedAnswerWasGiven(answers, |usernames| - 1);
      var next := UsernameAt(answers, |usernames|);
      if next.Failure? {
        FailedRoundCompletesNothing(answers, |usernames|);
        assert FailsAt(answers, |usernames|, next.error);
        return Failure(next.error);
      }
      NamesExtend(answers, usernames, next.value);
      usernames := usernames + [next.value];
      more := AnswerAt(answers, |usernames| - 1);
    }
    if more.Failure? {
      FailedRoundCompletesNothing(answers, |usernames| - 1);
      assert FailsAt(answers, |usernames| - 1, more.error);
      return Failure(more.error);
    }
    FinishRound(answers, |usernames| - 1);
    return Success(UserInput(year.value, usernames));
  }
}
