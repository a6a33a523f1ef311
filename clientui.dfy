/** Two small pieces of client state in public/script.js: the icon class
    shown for an avatar name, and the find-match button, whose
    `isSearchingMatch` flag decides which request a click sends. */
module ClientUi {
  import opened JsValues

  // ---------------------------------------------------------------------
  // getAvatarIcon (public/script.js:1112-1124)

  const DefaultIcon := "bi-controller"

  /** `iconMap`. */
  const AvatarIcons: map<string, string> := map[
    "controller" := "bi-controller",
    "bullseye" := "bi-bullseye",
    "dice" := "bi-dice-6",
    "trophy" := "bi-trophy",
    "star" := "bi-star-fill",
    "fire" := "bi-fire",
    "lightning" := "bi-lightning-fill",
    "gem" := "bi-gem"
  ]

  /** `iconMap[avatar] || 'bi-controller'`: a known avatar gets its icon,
      anything else (a missing avatar included) the controller icon; every
      icon is non-empty, so the fallback is only taken for unknown names. */
  function GetAvatarIcon(avatar: Option<string>): (icon: string)
    ensures icon in AvatarIcons.Values
    ensures PropKey(avatar) in AvatarIcons ==> icon == AvatarIcons[PropKey(avatar)]
    ensures PropKey(avatar) !in AvatarIcons ==> icon == DefaultIcon
  {
    var k := PropKey(avatar);
    if k in AvatarIcons && AvatarIcons[k] != "" then AvatarIcons[k]
    else
      assert AvatarIcons["controller"] == DefaultIcon;
      DefaultIcon
  }

  /** The avatar an icon stands for. */
  function AvatarOf(icon: string): Option<string>
  {
    if icon == "bi-controller" then Some("controller")
    else if icon == "bi-bullseye" then Some("bullseye")
    else if icon == "bi-dice-6" then Some("dice")
    else if icon == "bi-trophy" then Some("trophy")
    else if icon == "bi-star-fill" then Some("star")
    else if icon == "bi-fire" then Some("fire")
    else if icon == "bi-lightning-fill" then Some("lightning")
    else if icon == "bi-gem" then Some("gem")
    else None
  }

  /** A known avatar can be read back from its icon, so the eight avatars
      have eight different icons. */
  lemma {:induction false} AvatarIconRoundTrip(a: string)
    requires a in AvatarIcons
    ensures AvatarOf(GetAvatarIcon(Some(a))) == Some(a)
  {
    assert a in {"controller", "bullseye", "dice", "trophy", "star", "fire", "lightning", "gem"} by {
      assert AvatarIcons.Keys == {"controller", "bullseye", "dice", "trophy", "star", "fire", "lightning", "gem"};
    }
  }

  lemma AvatarIconsDistinct(a: string, b: string)
    requires a in AvatarIcons && b in AvatarIcons && a != b
    ensures GetAvatarIcon(Some(a)) != GetAvatarIcon(Some(b))
  {
    AvatarIconRoundTrip(a);
    AvatarIconRoundTrip(b);
  }

  /** A user who never chose an avatar gets the fallback. */
  lemma MissingAvatarIcon()
    ensures GetAvatarIcon(None) == DefaultIcon
  {
    assert "undefined" !in AvatarIcons.Keys by {
      assert AvatarIcons.Keys == {"controller", "bullseye", "dice", "trophy", "star", "fire", "lightning", "gem"};
    }
  }

  // ---------------------------------------------------------------------
  // The find-match button (public/script.js:1088-1097, 318-319)

  /** The two requests the button sends to the server. */
  datatype Request = FindMatchRequest | CancelMatchmakingRequest

  class MatchButton {
    var isSearchingMatch: bool
    /** What the button has sent so far, oldest first. */
    var sent: seq<Request>

    /** The flag is set only while the last request sent asks for a
        match, and a cancel is only ever sent right after a request for
        a match. */
    ghost predicate Valid()
      reads this
    {
      && (isSearchingMatch ==> |sent| > 0 && sent[|sent| - 1] == FindMatchRequest)
      && (forall i :: 0 <= i < |sent| && sent[i] == CancelMatchmakingRequest ==>
                      i > 0 && sent[i - 1] == FindMatchRequest)
    }

    constructor ()
      ensures Valid()
      ensures !isSearchingMatch && sent == []
    {
      isSearchingMatch := false;
      sent := [];
    }

    /** `findMatch()`: a click cancels a running search or starts one, and
        the flag flips. */
    method FindMatch() returns (req: Request)
      requires Valid()
      modifies this
      ensures Valid()
      ensures req == if old(isSearchingMatch) then CancelMatchmakingRequest else FindMatchRequest
      ensures isSearchingMatch == !old(isSearchingMatch)
      ensures sent == old(sent) + [req]
    {
      if isSearchingMatch {
        req := CancelMatchmakingRequest;
        isSearchingMatch := false;
      } else {
        req := FindMatchRequest;
        isSearchingMatch := true;
      }
      sent := sent + [req];
    }

    /** The 'matchFound' listener clears the flag without sending. */
    method OnMatchFound()
      requires Valid()
      modifies this
      ensures Valid()
      ensures !isSearchingMatch && sent == old(sent)
    {
      isSearchingMatch := false;
    }
  }
}
