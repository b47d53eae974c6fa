/** `OAuthFields`: the names of the fields of a signed `Authorization` header and the order in
    which sorting puts them. */
module OAuthFields {
  import opened Text

  const OAuthPrefix: string := "oauth_"
  const ConsumerKeyField: string := OAuthPrefix + "consumer_key"
  const NonceField: string := OAuthPrefix + "nonce"
  const SignatureKey: string := OAuthPrefix + "signature"
  const SignatureMethodField: string := SignatureKey + "_method"
  const TimestampField: string := OAuthPrefix + "timestamp"
  const TokenField: string := OAuthPrefix + "token"
  const VersionField: string := OAuthPrefix + "version"

  /** The fields of the header dictionary before signing, in the order they are set. */
  const HeaderDictKeys: seq<string> :=
    [ConsumerKeyField, NonceField, SignatureMethodField, TimestampField,
     TokenField, VersionField]

  /** All seven header fields in sorted order. */
  const HeaderKeyOrder: seq<string> :=
    [ConsumerKeyField, NonceField, SignatureKey, SignatureMethodField,
     TimestampField, TokenField, VersionField]

  /** The seven header fields are seven different names. */
  lemma HeaderFieldsDistinct()
    ensures |ConsumerKeyField| == 18 && |NonceField| == 11 && |SignatureKey| == 15
    ensures |SignatureMethodField| == 22 && |TimestampField| == 15 && |TokenField| == 11
    ensures |VersionField| == 13
    ensures SignatureKey != TimestampField && NonceField != TokenField
  {
    assert SignatureKey[6] != TimestampField[6];
    assert NonceField[6] != TokenField[6];
  }

  // Each field of `HeaderKeyOrder` sorts before the next: after their common prefix, the
  // first character that differs is smaller.

  lemma HeaderKeyLess0()
    ensures Less(HeaderKeyOrder[0], HeaderKeyOrder[1])
  {
    LessAfterPrefix(OAuthPrefix, "consumer_key", "nonce");
  }

  lemma HeaderKeyLess1()
    ensures Less(HeaderKeyOrder[1], HeaderKeyOrder[2])
  {
    LessAfterPrefix(OAuthPrefix, "nonce", "signature");
  }

  lemma HeaderKeyLess2()
    ensures Less(HeaderKeyOrder[2], HeaderKeyOrder[3])
  {
    LessAfterPrefix(SignatureKey, "", "_method");
    assert SignatureKey + "" == SignatureKey;
  }

  lemma HeaderKeyLess3()
    ensures Less(HeaderKeyOrder[3], HeaderKeyOrder[4])
  {
    LessAfterPrefix(OAuthPrefix, "signature" + "_method", "timestamp");
    assert SignatureMethodField == OAuthPrefix + ("signature" + "_method");
  }

  lemma HeaderKeyLess4()
    ensures Less(HeaderKeyOrder[4], HeaderKeyOrder[5])
  {
    LessAfterPrefix("t", "imestamp", "oken");
    assert "timestamp" == "t" + "imestamp" && "token" == "t" + "oken";
    LessAfterPrefix(OAuthPrefix, "timestamp", "token");
  }

  lemma HeaderKeyLess5()
    ensures Less(HeaderKeyOrder[5], HeaderKeyOrder[6])
  {
    LessAfterPrefix(OAuthPrefix, "token", "version");
  }

  /** A sequence of seven strings whose neighbours are in order. */
  lemma SevenAdjacent(o: seq<string>)
    requires |o| == 7
    requires Less(o[0], o[1]) && Less(o[1], o[2]) && Less(o[2], o[3])
    requires Less(o[3], o[4]) && Less(o[4], o[5]) && Less(o[5], o[6])
    ensures forall i :: 0 <= i < |o| - 1 ==> Less(o[i], o[i + 1])
  {
    forall i | 0 <= i < |o| - 1 ensures Less(o[i], o[i + 1]) {
      if i == 0 {
      } else if i == 1 {
      } else if i == 2 {
      } else if i == 3 {
      } else if i == 4 {
      } else {
      }
    }
  }

  /** The seven header fields are listed in strictly ascending order. */
  lemma HeaderKeyOrderSorted()
    ensures StrictlySorted(HeaderKeyOrder)
  {
    HeaderKeyLess0(); HeaderKeyLess1(); HeaderKeyLess2(); HeaderKeyLess3(); HeaderKeyLess4(); HeaderKeyLess5();
    SevenAdjacent(HeaderKeyOrder);
    StrictlySortedFromAdjacent(HeaderKeyOrder);
  }

  /** Sorting the seven header fields always gives the same order, with `oauth_signature` third. */
  lemma HeaderKeysSorted(keys: set<string>)
    requires forall k :: k in keys <==> k in HeaderKeyOrder
    ensures SortedKeys(keys) == HeaderKeyOrder
  {
    HeaderKeyOrderSorted();
    SortedKeysOfSorted(keys, HeaderKeyOrder);
  }
}
