/**
 * The signed-in user's record and the text it is stored as. The application
 * stores the record with `JSON.stringify` and reads it with `JSON.parse`; the
 * model stands in an injective length-prefixed encoding for both, so that
 * what the session keeps under its user key can be read back.
 */
module UserCodec {
  import opened Wrappers
  import opened Text

  /** The fields the login keeps from the identity provider's answer. */
  datatype UserData = UserData(
    kind: string,
    localId: string,
    email: string,
    displayName: string,
    registered: bool)

  /** One field: its length in decimal, a colon, then the text itself. */
  function EncodeField(s: string): (t: string)
    ensures |t| > |s|
  {
    NatToString(|s|) + ":" + s
  }

  /** Reads one field off the front of `t`, returning it and what follows. */
  function DecodeField(t: string): (r: Option<(string, string)>)
    ensures r.Some? ==> |r.value.1| < |t|
  {
    var d := LeadingDigits(t);
    if d == [] || |d| == |t| || t[|d|] != ':' then None
    else
      var n := DigitsToNat(d);
      var body := t[|d| + 1..];
      if n > |body| then None else Some((body[..n], body[n..]))
  }

  /** A field is read back whole, and the text after it is left untouched. */
  lemma DecodeEncodeField(s: string, rest: string)
    ensures DecodeField(EncodeField(s) + rest) == Some((s, rest))
  {
    var len := NatToString(|s|);
    var t := EncodeField(s) + rest;
    assert t == len + (":" + s + rest);
    LeadingDigitsOfDigits(len, ":" + s + rest);
    DigitsToNatOfNatToString(|s|);
    assert t[|len| + 1..] == s + rest;
  }

  function EncodeFlag(b: bool): string {
    if b then "t" else "f"
  }

  /** Reads the flag that ends a record; None for any other text. */
  function DecodeFlag(t: string): (r: Option<bool>)
    ensures r.Some? ==> t == EncodeFlag(r.value)
  {
    if t == "t" then Some(true) else if t == "f" then Some(false) else None
  }

  lemma DecodeEncodeFlag(b: bool)
    ensures DecodeFlag(EncodeFlag(b)) == Some(b)
  {
    assert "t" != "f" by { assert "t"[0] != "f"[0]; }
  }

  /** The stored text of a user record; never empty. */
  function Encode(u: UserData): (t: string)
    ensures t != []
  {
    EncodeField(u.kind) + (EncodeField(u.localId) + (EncodeField(u.email)
      + (EncodeField(u.displayName) + EncodeFlag(u.registered))))
  }

  /**
   * Parses stored text back into a user record; None where parsing throws.
   * The fields are read in order, each off what the previous one left.
   */
  function Decode(t: string): Option<UserData> {
    match DecodeField(t)
    case None => None
    case Some((kind, rest)) => DecodeLocalId(kind, rest)
  }

  function DecodeLocalId(kind: string, t: string): Option<UserData> {
    match DecodeField(t)
    case None => None
    case Some((localId, rest)) => DecodeEmail(kind, localId, rest)
  }

  function DecodeEmail(kind: string, localId: string, t: string): Option<UserData> {
    match DecodeField(t)
    case None => None
    case Some((email, rest)) => DecodeDisplayName(kind, localId, email, rest)
  }

  function DecodeDisplayName(kind: string, localId: string, email: string, t: string): Option<UserData> {
    match DecodeField(t)
    case None => None
    case Some((displayName, rest)) =>
      match DecodeFlag(rest)
      case None => None
      case Some(registered) => Some(UserData(kind, localId, email, displayName, registered))
  }

  /** What was stored is what is read back. */
  lemma DecodeEncode(u: UserData)
    ensures Decode(Encode(u)) == Some(u)
  {
    var flag := EncodeFlag(u.registered);
    var t3 := EncodeField(u.displayName) + flag;
    var t2 := EncodeField(u.email) + t3;
    var t1 := EncodeField(u.localId) + t2;
    assert DecodeDisplayName(u.kind, u.localId, u.email, t3) == Some(u) by {
      DecodeEncodeField(u.displayName, flag);
      DecodeEncodeFlag(u.registered);
    }
    assert DecodeEmail(u.kind, u.localId, t2) == Some(u) by {
      DecodeEncodeField(u.email, t3);
    }
    assert DecodeLocalId(u.kind, t1) == Some(u) by {
      DecodeEncodeField(u.localId, t2);
    }
    DecodeEncodeField(u.kind, t1);
  }
}
