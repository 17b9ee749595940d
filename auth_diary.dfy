/**
 * The in-memory "diary" authentication demo: a global object DIARY that maps
 * a token to the details given at sign-up, and a global set EMAILs of every
 * email that ever signed up. The three POST handlers /signup, /me and
 * /private-data become methods on one object that owns both.
 */
module AuthDiary {
  import opened Wrappers

  /** What DIARY stores under a token: the sign-up body. */
  datatype Entry = Entry(name: string, email: string, password: string)

  /** Why /me or /private-data refused a request (both answer 400). */
  datatype Denial = MissingToken | InvalidToken

  /** /signup answers 400 "Email already taken" or 200 with the new token. */
  datatype SignupReply = EmailTaken | SignedUp(token: string)

  /** /me answers with an error or with the stored entry. */
  datatype MeReply = MeDenied(denial: Denial) | Data(entry: Entry)

  /** /private-data answers with an error or with "Access Granted". */
  datatype PrivateReply = PrivateDenied(denial: Denial) | AccessGranted

  predicate IsDigit(c: char)
  {
    '0' <= c <= '9'
  }

  /** A non-empty string of decimal digits, the shape of `${Date.now()}`. */
  predicate IsDecimal(s: string)
  {
    |s| > 0 && forall i :: 0 <= i < |s| ==> IsDigit(s[i])
  }

  function DigitChar(d: nat): (c: char)
    requires d < 10
    ensures IsDigit(c) && c as int - '0' as int == d
  {
    ('0' as int + d) as char
  }

  /** The number a string of decimal digits denotes. */
  function DecimalValue(s: string): nat
    requires forall i :: 0 <= i < |s| ==> IsDigit(s[i])
  {
    if s == [] then 0
    else
      assert IsDigit(s[|s| - 1]);
      DecimalValue(s[..|s| - 1]) * 10 + (s[|s| - 1] as int - '0' as int)
  }

  /**
   * The token `${Date.now()}`: the decimal rendering of the clock reading,
   * without leading zeros, which reads back as that reading.
   */
  function Decimal(n: nat): (s: string)
    ensures IsDecimal(s)
    ensures DecimalValue(s) == n
    ensures s[0] == '0' ==> s == "0"
  {
    if n < 10 then [DigitChar(n)]
    else
      var prefix := Decimal(n / 10);
      var s := prefix + [DigitChar(n % 10)];
      assert s[..|s| - 1] == prefix;
      s
  }

  class Registry {
    /** DIARY: token -> entry. */
    var diary: map<string, Entry>
    /** EMAILs: every email that signed up. */
    var emails: set<string>

    /**
     * Every stored entry's email is recorded, and every token has the shape
     * of a clock reading. The converse of the first conjunct does not hold:
     * see SameMillisecondSignups.
     */
    ghost predicate Valid()
      reads this
    {
      && (forall t :: t in diary ==> diary[t].email in emails)
      && (forall t :: t in diary ==> IsDecimal(t))
    }

    /** Both globals start empty. */
    constructor ()
      ensures Valid()
      ensures diary == map[] && emails == {}
    {
      diary := map[];
      emails := {};
    }

    /**
     * POST /signup. A known email is refused and nothing changes; otherwise
     * the entry is stored under the token made from the clock reading `now`
     * (overwriting any entry already there) and the email is recorded.
     */
    method Signup(name: string, email: string, password: string, now: nat) returns (r: SignupReply)
      requires Valid()
      modifies this
      ensures Valid()
      ensures old(emails) <= emails
      ensures email in old(emails) ==>
        r == EmailTaken && diary == old(diary) && emails == old(emails)
      ensures email !in old(emails) ==>
        && r == SignedUp(Decimal(now))
        && diary == old(diary)[Decimal(now) := Entry(name, email, password)]
        && emails == old(emails) + {email}
    {
      if email in emails {
        return EmailTaken;
      }
      var token := Decimal(now);
      diary := diary[token := Entry(name, email, password)];
      emails := emails + {email};
      r := SignedUp(token);
    }

    /** POST /me: a missing token, then an unknown token, is refused; a known token yields its entry. */
    method Me(token: Option<string>) returns (r: MeReply)
      ensures !Present(token) ==> r == MeDenied(MissingToken)
      ensures Present(token) && token.value !in diary ==> r == MeDenied(InvalidToken)
      ensures Present(token) && token.value in diary ==> r == Data(diary[token.value])
    {
      if !Present(token) {
        return MeDenied(MissingToken);
      }
      if token.value !in diary {
        return MeDenied(InvalidToken);
      }
      r := Data(diary[token.value]);
    }

    /**
     * POST /private-data: access is granted exactly when the token is present
     * and is a key of DIARY; the refusals are those of Me.
     */
    method PrivateData(token: Option<string>) returns (r: PrivateReply)
      ensures r == AccessGranted <==> Present(token) && token.value in diary
      ensures !Present(token) ==> r == PrivateDenied(MissingToken)
      ensures Present(token) && token.value !in diary ==> r == PrivateDenied(InvalidToken)
    {
      if !Present(token) {
        return PrivateDenied(MissingToken);
      }
      if token.value !in diary {
        return PrivateDenied(InvalidToken);
      }
      r := AccessGranted;
    }
  }

  /**
   * Two sign-ups with different fresh emails in the same millisecond `now`:
   * both succeed, the second entry replaces the first under the shared
   * token, and EMAILs keeps both, so the first email has no entry.
   */
  method SameMillisecondSignups(reg: Registry, now: nat,
                                name1: string, email1: string, password1: string,
                                name2: string, email2: string, password2: string)
    returns (first: SignupReply, second: SignupReply)
    requires reg.Valid()
    requires email1 != email2 && email1 !in reg.emails && email2 !in reg.emails
    modifies reg
    ensures reg.Valid()
    ensures first == SignedUp(Decimal(now)) && second == SignedUp(Decimal(now))
    ensures reg.diary == old(reg.diary)[Decimal(now) := Entry(name2, email2, password2)]
    ensures reg.emails == old(reg.emails) + {email1, email2}
    ensures email1 in reg.emails && forall t :: t in reg.diary ==> reg.diary[t].email != email1
  {
    first := reg.Signup(name1, email1, password1, now);
    second := reg.Signup(name2, email2, password2, now);
  }

  // ---------------------------------------------------------------------
  // The guard as written: `token in DIARY`.

  /** Names every plain JavaScript object inherits from Object.prototype. */
  const ObjectPrototypeNames: set<string> := {
    "constructor", "hasOwnProperty", "isPrototypeOf", "propertyIsEnumerable",
    "toLocaleString", "toString", "valueOf", "__proto__",
    "__defineGetter__", "__defineSetter__", "__lookupGetter__", "__lookupSetter__"
  }

  /** JavaScript's `key in DIARY`: an own key, or a name inherited from Object.prototype. */
  predicate JsIn(key: string, diary: map<string, Entry>)
  {
    key in diary || key in ObjectPrototypeNames
  }

  /**
   * /private-data with its guard exactly as written: access for a present
   * token that is an own key or an inherited name, otherwise the refusals
   * of the corrected guard.
   */
  function PrivateDataAsWritten(diary: map<string, Entry>, token: Option<string>): (r: PrivateReply)
    ensures r == AccessGranted <==> Present(token) && (token.value in diary || token.value in ObjectPrototypeNames)
    ensures !Present(token) ==> r == PrivateDenied(MissingToken)
    ensures Present(token) && token.value !in diary && token.value !in ObjectPrototypeNames ==>
      r == PrivateDenied(InvalidToken)
  {
    if !Present(token) then PrivateDenied(MissingToken)
    else if !JsIn(token.value, diary) then PrivateDenied(InvalidToken)
    else AccessGranted
  }

  /**
   * Whatever has signed up, the guard as written grants private data to the
   * token "toString", which no sign-up can ever produce and which is not a
   * key of DIARY.
   */
  lemma PrivateDataAsWrittenAdmitsInheritedName(diary: map<string, Entry>)
    requires forall t :: t in diary ==> IsDecimal(t)
    ensures "toString" !in diary
    ensures forall now: nat :: Decimal(now) != "toString"
    ensures PrivateDataAsWritten(diary, Some("toString")) == AccessGranted
  {
  }
}
