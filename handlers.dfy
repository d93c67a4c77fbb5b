/** The per-user state kept by the bot's two handlers, `handle_plate` and
    `on_callback` in bot.py. The chat framework gives each user one
    `user_data` dictionary, shared by every chat that user writes in, which
    the handlers read and update in place; the replies they send are
    abstracted into an `Outcome`. */
module Handlers {
  import opened Wrappers
  import opened Vrm
  import opened Url

  const VrmKey: string := "vrm"
  const UrlKey: string := "url"

  /** The callback data of the "Screenshot" button. */
  const ShotData: string := "shot"

  /** What a handler did, in place of the chat reply it sent. */
  datatype Outcome =
    | Rejected                                  // plate failed the pattern; reply asks for letters and digits only
    | Prompted(vrm: string, url: string)        // plate accepted; reply offers "Screenshot" and "Open link"
    | Ignored                                   // callback data other than "shot"
    | NoPlate                                   // "send the plate first"
    | CaptureRequested(url: string, vrm: string) // screenshot of `url` to be taken and sent with `vrm`

  /** Python's truth value of `user_data.get(key)` for a string entry:
      present and not empty. */
  predicate Present(userData: map<string, string>, key: string) {
    key in userData && userData[key] != ""
  }

  /** One user's session: that user's `user_data`. */
  class UserSession {
    var userData: map<string, string>

    /** A user the bot has not seen yet starts with an empty `user_data`. */
    constructor ()
      ensures userData == map[]
      ensures Consistent()
    {
      userData := map[];
    }

    /** What `handle_plate` maintains: the plate and its address are stored
        together, the plate is valid and the address is built from it. */
    ghost predicate Consistent()
      reads this
    {
      (VrmKey in userData <==> UrlKey in userData) &&
      (VrmKey in userData ==>
         ValidVrm(userData[VrmKey]) && userData[UrlKey] == BuildUrl(userData[VrmKey]))
    }

    /** `handle_plate`: normalise the message text and check it against
        `VRM_RE`. A rejected plate leaves `user_data` exactly as it was; an
        accepted one stores the plate and its address under "vrm" and "url"
        and leaves every other entry alone. */
    method HandlePlate(text: Option<string>) returns (o: Outcome)
      modifies this
      ensures var v := NormalizeVrm(text);
        if ValidVrm(v) then
          o == Prompted(v, BuildUrl(v)) &&
          userData == old(userData)[VrmKey := v][UrlKey := BuildUrl(v)]
        else
          o == Rejected && userData == old(userData)
      ensures o.Prompted? ==> Consistent() && o.url == QueryPrefix + o.vrm
      ensures old(Consistent()) ==> Consistent()
    {
      var vrm := NormalizeVrm(text);
      AcceptsNormalized(text);
      if !VrmReMatch(vrm) {
        return Rejected;
      }
      var url := BuildUrl(vrm);
      userData := userData[VrmKey := vrm];
      userData := userData[UrlKey := url];
      BuildUrlOfValid(vrm);
      o := Prompted(vrm, url);
    }

    /** `on_callback`: a press of "Screenshot" asks for a capture of the
        stored address, provided a plate and an address are stored; any other
        callback is ignored. Nothing in `user_data` changes. On a consistent
        session the capture is of the address built from a valid plate, and
        it is refused only when no plate was ever accepted. */
    method OnCallback(data: Option<string>) returns (o: Outcome)
      ensures data != Some(ShotData) ==> o == Ignored
      ensures o.CaptureRequested? <==>
              data == Some(ShotData) && Present(userData, VrmKey) && Present(userData, UrlKey)
      ensures o == NoPlate <==>
              data == Some(ShotData) && !(Present(userData, VrmKey) && Present(userData, UrlKey))
      ensures o.CaptureRequested? ==> o.vrm == userData[VrmKey] && o.url == userData[UrlKey]
      ensures Consistent() && o.CaptureRequested? ==>
              ValidVrm(o.vrm) && o.url == QueryPrefix + o.vrm
      ensures Consistent() && data == Some(ShotData) ==>
              (o.CaptureRequested? <==> VrmKey in userData)
    {
      if data != Some(ShotData) {
        return Ignored;
      }
      if !Present(userData, VrmKey) || !Present(userData, UrlKey) {
        return NoPlate;
      }
      var vrm := userData[VrmKey];
      var url := userData[UrlKey];
      if Consistent() {
        BuildUrlOfValid(vrm);
      }
      o := CaptureRequested(url, vrm);
    }
  }
}
