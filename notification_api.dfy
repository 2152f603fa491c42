/**
 * The gameroom UI's choice of which notifications to show: proposals, activated circuits
 * and created games, except the user's own proposals.
 */
module NotificationApi {
  import opened Text
  import opened Notifications

  /** The notification types shown by name. */
  const DisplayedTypes: seq<string> := ["supplychain_proposal", "circuit_active"]

  /**
   * `isDisplayed`: a notification whose type is listed, or starts with `new_game_created`,
   * is shown, unless it is a proposal the user made.
   */
  function IsDisplayed(publicKey: string, n: Notification): (shown: bool)
    ensures shown <==>
              || n.notificationType == "circuit_active"
              || StartsWith(n.notificationType, "new_game_created")
              || (n.notificationType == "supplychain_proposal" && n.requester != publicKey)
  {
    assert !StartsWith("supplychain_proposal", "new_game_created") by {
      assert "supplychain_proposal"[0] != "new_game_created"[0];
    }
    if n.notificationType in DisplayedTypes || StartsWith(n.notificationType, "new_game_created") then
      !(n.notificationType == "supplychain_proposal" && n.requester == publicKey)
    else
      false
  }

  /** `notifications.filter(isDisplayed)`: the shown notifications, in order. */
  function FilterDisplayed(publicKey: string, ns: seq<Notification>): (shown: seq<Notification>)
    ensures |shown| <= |ns|
    ensures forall n :: n in shown <==> n in ns && IsDisplayed(publicKey, n)
  {
    if |ns| == 0 then []
    else if IsDisplayed(publicKey, ns[0]) then [ns[0]] + FilterDisplayed(publicKey, ns[1..])
    else FilterDisplayed(publicKey, ns[1..])
  }

  /** Filtering keeps the order: it distributes over concatenation. */
  lemma {:induction false} FilterDisplayedAppend(publicKey: string, a: seq<Notification>, b: seq<Notification>)
    ensures FilterDisplayed(publicKey, a + b) == FilterDisplayed(publicKey, a) + FilterDisplayed(publicKey, b)
    decreases |a|
  {
    if |a| == 0 {
      assert a + b == b;
    } else {
      assert (a + b)[1..] == a[1..] + b;
      FilterDisplayedAppend(publicKey, a[1..], b);
    }
  }

  /** Filtering twice is filtering once. */
  lemma {:induction false} FilterDisplayedIdempotent(publicKey: string, ns: seq<Notification>)
    ensures FilterDisplayed(publicKey, FilterDisplayed(publicKey, ns)) == FilterDisplayed(publicKey, ns)
    decreases |ns|
  {
    if |ns| > 0 {
      FilterDisplayedIdempotent(publicKey, ns[1..]);
      var rest := FilterDisplayed(publicKey, ns[1..]);
      if IsDisplayed(publicKey, ns[0]) {
        assert ([ns[0]] + rest)[1..] == rest;
      }
    }
  }

  /** The user's own proposals never show, whoever else's do. */
  lemma OwnProposalsHidden(publicKey: string, ns: seq<Notification>)
    ensures forall n :: n in FilterDisplayed(publicKey, ns) && n.notificationType == "supplychain_proposal" ==>
              n.requester != publicKey
  {
  }

  /** Concrete cases: any suffix after `new_game_created` shows, an unlisted type does not. */
  lemma IsDisplayedExamples(publicKey: string, n: Notification)
    ensures n.notificationType == "new_game_created_xyz" ==> IsDisplayed(publicKey, n)
    ensures n.notificationType == "circuit_disbanded" ==> !IsDisplayed(publicKey, n)
  {
    assert "new_game_created_xyz"[..16] == "new_game_created";
    assert "circuit_disbanded"[..16] != "new_game_created" by {
      assert "circuit_disbanded"[0] != "new_game_created"[0];
    }
  }
}
