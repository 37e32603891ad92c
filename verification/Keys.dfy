/** The eight key families of the auth domain share one string namespace. They are
    injective and pairwise disjoint, so that namespace behaves as eight separate maps. */
module Keys {
  import opened Base
  import opened KeyValue

  datatype Key =
    | Refresh(jti: string)
    | UserOTP(email: string)
    | OTPAttempts(email: string)
    | LoginAttempts(email: string)
    | ForgotAttempts(email: string)
    | PasswordReset(token: string)
    | ResetIndex(userId: string)
    | TokenCutoff(userId: string)

  function PrefixLength(k: Key): nat {
    match k
    case Refresh(_) => 8
    case UserOTP(_) => 9
    case OTPAttempts(_) => 13
    case LoginAttempts(_) => 15
    case ForgotAttempts(_) => 16
    case PasswordReset(_) => 10
    case ResetIndex(_) => 15
    case TokenCutoff(_) => 11
  }

  function Prefix(k: Key): (p: string)
    ensures |p| == PrefixLength(k)
    ensures p[0] == match k
                    case Refresh(_) => 'r'
                    case UserOTP(_) => 'u'
                    case OTPAttempts(_) => 'o'
                    case LoginAttempts(_) => 'l'
                    case ForgotAttempts(_) => 'f'
                    case _ => 'p'
    ensures k.PasswordReset? ==> p[4] == 'r' && p[9] == ':'
    ensures k.ResetIndex? ==> p[4] == 'r' && p[9] == '_'
    ensures k.TokenCutoff? ==> p[4] == 'c'
  {
    match k
    case Refresh(_) => "refresh:"
    case UserOTP(_) => "user_otp:"
    case OTPAttempts(_) => "otp_attempts:"
    case LoginAttempts(_) => "login_attempts:"
    case ForgotAttempts(_) => "forgot_attempts:"
    case PasswordReset(_) => "pwd_reset:"
    case ResetIndex(_) => "pwd_reset_user:"
    case TokenCutoff(_) => "pwd_cutoff:"
  }

  function Suffix(k: Key): string {
    match k
    case Refresh(s) => s
    case UserOTP(s) => s
    case OTPAttempts(s) => s
    case LoginAttempts(s) => s
    case ForgotAttempts(s) => s
    case PasswordReset(s) => s
    case ResetIndex(s) => s
    case TokenCutoff(s) => s
  }

  function Encode(k: Key): string { Prefix(k) + Suffix(k) }

  /** The only family whose prefix can start s, told by the characters where the prefixes differ. */
  function Candidate(s: string): Option<Key> {
    if |s| < 8 then None
    else match s[0]
      case 'r' => Some(Refresh(s[8..]))
      case 'u' => if |s| < 9 then None else Some(UserOTP(s[9..]))
      case 'o' => if |s| < 13 then None else Some(OTPAttempts(s[13..]))
      case 'l' => if |s| < 15 then None else Some(LoginAttempts(s[15..]))
      case 'f' => if |s| < 16 then None else Some(ForgotAttempts(s[16..]))
      case 'p' =>
        if |s| < 10 then None
        else if s[4] == 'r' && s[9] == ':' then Some(PasswordReset(s[10..]))
        else if s[4] == 'r' then if |s| < 15 then None else Some(ResetIndex(s[15..]))
        else if |s| < 11 then None else Some(TokenCutoff(s[11..]))
      case _ => None
  }

  /** The key a string encodes, if any. */
  function Decode(s: string): Option<Key> {
    var c := Candidate(s);
    if c.Some? && Prefix(c.value) <= s then c else None
  }

  lemma CandidateEncode(k: Key)
    ensures Candidate(Encode(k)) == Some(k)
  {
    hide Prefix;
    var s := Encode(k);
    var p := Prefix(k);
    assert s[|p|..] == Suffix(k);
    assert s[0] == p[0] && (s[0] == 'p' ==> s[4] == p[4] && s[9] == p[9]);
  }

  /** Every key string decodes to exactly the family and suffix it was built from. */
  lemma DecodeEncode(k: Key)
    ensures Decode(Encode(k)) == Some(k)
  {
    hide Prefix, Candidate;
    CandidateEncode(k);
  }

  /** Only strings that some constructor builds decode. */
  lemma EncodeDecode(s: string)
    requires Decode(s).Some?
    ensures Encode(Decode(s).value) == s
  {
    hide Prefix;
    var k := Candidate(s).value;
    assert Suffix(k) == s[|Prefix(k)|..];
  }

  /** Two constructors never meet, and one constructor never sends two suffixes to one string. */
  lemma EncodeInjective(a: Key, b: Key)
    requires Encode(a) == Encode(b)
    ensures a == b
  {
    DecodeEncode(a);
    DecodeEncode(b);
  }

  function EncodeCommand(c: Command<Key>): Command<string> {
    match c
    case GetCmd(k) => GetCmd(Encode(k))
    case SetCmd(k, s) => SetCmd(Encode(k), s)
    case DelCmd(k) => DelCmd(Encode(k))
    case IncrCmd(k) => IncrCmd(Encode(k))
    case ExpireCmd(k, ttl) => ExpireCmd(Encode(k), ttl)
  }

  function EncodeCommands(cs: seq<(Time, Command<Key>)>): (r: seq<(Time, Command<string>)>)
    ensures |r| == |cs|
  {
    seq(|cs|, i requires 0 <= i < |cs| => (cs[i].0, EncodeCommand(cs[i].1)))
  }

  /** The string store holds, under each encoded key, what the family store holds. */
  ghost predicate Represents(strings: map<string, Entry>, families: map<Key, Entry>) {
    forall k: Key {:trigger Encode(k)} ::
      (k in families <==> Encode(k) in strings) &&
      (k in families ==> families[k] == strings[Encode(k)])
  }

  lemma ApplyRepresents(strings: map<string, Entry>, families: map<Key, Entry>, setTTL: Time, now: Time, c: Command<Key>)
    requires Represents(strings, families)
    ensures var (s', r) := Apply(strings, setTTL, now, EncodeCommand(c));
            var (f', q) := Apply(families, setTTL, now, c);
            r == q && Represents(s', f')
  {
    var s' := Apply(strings, setTTL, now, EncodeCommand(c)).0;
    var f' := Apply(families, setTTL, now, c).0;
    forall k: Key
      ensures (k in f' <==> Encode(k) in s') && (k in f' ==> f'[k] == s'[Encode(k)])
    {
      if Encode(k) == Encode(c.k) {
        EncodeInjective(k, c.k);
      }
    }
  }

  /** No sequence of commands can tell the shared string namespace from eight separate families. */
  lemma {:induction false} NamespaceRefinement(strings: map<string, Entry>, families: map<Key, Entry>, setTTL: Time,
                                              cs: seq<(Time, Command<Key>)>)
    requires Represents(strings, families)
    ensures Replies(strings, setTTL, EncodeCommands(cs)) == Replies(families, setTTL, cs)
    decreases |cs|
  {
    if cs != [] {
      ApplyRepresents(strings, families, setTTL, cs[0].0, cs[0].1);
      assert EncodeCommands(cs)[1..] == EncodeCommands(cs[1..]);
      NamespaceRefinement(Apply(strings, setTTL, cs[0].0, EncodeCommand(cs[0].1)).0,
                          Apply(families, setTTL, cs[0].0, cs[0].1).0, setTTL, cs[1..]);
    }
  }
}
