/** The bot's worked examples, checked against the model: "vn64 nwg" (the
    plate of the help text, typed in lower case with a space) and the
    malformed "AB!12". */
module Examples {
  import opened Wrappers
  import opened Vrm

  /** Upper-casing the accepted example. */
  lemma UpperAccepted(s: string)
    requires s == "vn64 nwg"
    ensures Upper(s) == "VN64 NWG"
  {
    var u := Upper(s);
    assert u[0] == UpperChar(s[0]) == 'V';
    assert u[1] == UpperChar(s[1]) == 'N';
    assert u[2] == UpperChar(s[2]) == '6';
    assert u[3] == UpperChar(s[3]) == '4';
    assert u[4] == UpperChar(s[4]) == ' ';
    assert u[5] == UpperChar(s[5]) == 'N';
    assert u[6] == UpperChar(s[6]) == 'W';
    assert u[7] == UpperChar(s[7]) == 'G';
  }

  /** The rejected example has no lower-case letter and no whitespace, so
      normalising leaves it as it is. */
  lemma NormalizeRejected(text: Option<string>)
    requires text == Some("AB!12")
    ensures NormalizeVrm(text) == text.value
  {
    var s := text.value;
    assert !IsLower(s[0]) && !IsLower(s[1]) && !IsLower(s[2]) && !IsLower(s[3]) && !IsLower(s[4]);
    assert !IsSpace(s[0]) && !IsSpace(s[1]) && !IsSpace(s[2]) && !IsSpace(s[3]) && !IsSpace(s[4]);
    UpperFixed(s);
    RemoveSpaceFixed(s);
    NormalizeIsRemoveSpace(text);
  }

  /** Deleting the space of the upper-cased accepted example. */
  lemma RemoveSpaceAccepted(s: string)
    requires s == "VN64 NWG"
    ensures RemoveSpace(s) == "VN64NWG"
  {
    var a, b, c := s[..4], s[4..5], s[5..];
    assert s == a + b + c;
    RemoveSpaceAppend(a + b, c);
    RemoveSpaceAppend(a, b);
    RemoveSpaceFixed(a);
    RemoveSpaceFixed(c);
    assert RemoveSpace(b) == RemoveSpace(b[1..]);
    assert a + c == "VN64NWG";
  }


  /** "VN64NWG" is a valid plate. */
  lemma ValidAccepted(v: string)
    requires v == "VN64NWG"
    ensures ValidVrm(v)
  {
    assert IsVrmChar(v[0]) && IsVrmChar(v[1]) && IsVrmChar(v[2]) && IsVrmChar(v[3]);
    assert IsVrmChar(v[4]) && IsVrmChar(v[5]) && IsVrmChar(v[6]);
  }

  /** "vn64 nwg" normalises to the valid plate "VN64NWG". */
  lemma AcceptedExample(text: Option<string>)
    requires text == Some("vn64 nwg")
    ensures NormalizeVrm(text) == "VN64NWG"
    ensures ValidVrm(NormalizeVrm(text))
  {
    NormalizeIsRemoveSpace(text);
    var u := Upper(text.value);
    UpperAccepted(text.value);
    RemoveSpaceAccepted(u);
    var v := NormalizeVrm(text);
    ValidAccepted(v);
  }

  /** "AB!12" survives normalisation unchanged and is invalid for its `!`. */
  lemma RejectedExample(text: Option<string>)
    requires text == Some("AB!12")
    ensures NormalizeVrm(text) == "AB!12"
    ensures !ValidVrm(NormalizeVrm(text))
  {
    NormalizeRejected(text);
    var v := NormalizeVrm(text);
    assert v[2] == '!' && !IsVrmChar(v[2]);
  }
}

module Conversations {
  import opened Wrappers
  import opened Vrm
  import opened Url
  import opened Handlers
  import opened Examples

  /** A user who presses "Screenshot" before sending a plate, then sends the
      malformed plate, then the good one, then presses "Screenshot" again. */
  method Conversation() {
    var user := new UserSession();
    var o := user.OnCallback(Some(ShotData));
    assert o == NoPlate;
    var bad := Some("AB!12");
    RejectedExample(bad);
    o := user.HandlePlate(bad);
    assert o == Rejected && user.userData == map[];
    var good := Some("vn64 nwg");
    AcceptedExample(good);
    o := user.HandlePlate(good);
    assert o == Prompted("VN64NWG", QueryPrefix + "VN64NWG");
    o := user.OnCallback(Some(ShotData));
    assert o == CaptureRequested(QueryPrefix + "VN64NWG", "VN64NWG");
  }
}
