/**
 * The application shell of src/app.tsx: the postcode the search box last
 * reported, the queue of toast messages, the info dialog flag, the online
 * flag kept in step with the browser's online and offline events, and the
 * matcher for the secret key sequence.
 */
module App {
  import opened Common

  /** The secret key sequence (the Konami code). */
  const Secret: seq<string> :=
    ["ArrowUp", "ArrowUp", "ArrowDown", "ArrowDown", "ArrowLeft", "ArrowRight",
     "ArrowLeft", "ArrowRight", "b", "a", "Enter"]

  const OfflineText := "Connection lost. Functionality will be limited."
  const OnlineText := "Reconnected. Functionality restored."
  const StartOfflineText := "Looks like you're offline. Functionality will be limited."

  /** The action button a toast may carry; its click handler is not modelled. */
  datatype ToastAction = ToastAction(children: string)

  datatype Toast = Toast(text: string, action: Option<ToastAction>)

  /** The keys matched so far are the start of the secret and never all of it. */
  predicate KeysValid(recent: seq<string>)
  {
    recent <= Secret && |recent| < |Secret|
  }

  /**
   * One keydown: a key that continues the secret is pushed, any other key
   * empties the list (even the first key of the secret), and the list is
   * emptied again once it holds the whole secret. The flag says whether the
   * secret was just completed.
   */
  function KeyStep(recent: seq<string>, key: string): (next: (seq<string>, bool))
    requires KeysValid(recent)
    ensures KeysValid(next.0)
    ensures next.1 <==> recent + [key] == Secret
    ensures !next.1 && Secret[|recent|] == key ==> next.0 == recent + [key]
    ensures Secret[|recent|] != key ==> next.0 == []
    ensures next.1 ==> next.0 == []
  {
    var pushed := if Secret[|recent|] == key then recent + [key] else [];
    if |pushed| == |Secret| then
      assert pushed == Secret;
      ([], true)
    else
      assert recent + [key] == Secret ==> |recent + [key]| == |Secret|;
      (pushed, false)
  }

  /** The keys matched after a whole series of keydowns, and how many times the secret was completed. */
  function KeyRun(recent: seq<string>, keys: seq<string>): (r: (seq<string>, nat))
    requires KeysValid(recent)
    ensures KeysValid(r.0)
    decreases |keys|
  {
    if keys == [] then (recent, 0)
    else
      var step := KeyStep(recent, keys[0]);
      var rest := KeyRun(step.0, keys[1..]);
      (rest.0, rest.1 + (if step.1 then 1 else 0))
  }

  /** Typing a prefix of the secret from a clean start matches exactly that prefix. */
  lemma {:induction false} KeyRunPrefix(n: nat)
    requires n < |Secret|
    ensures KeyRun([], Secret[..n]) == (Secret[..n], 0)
  {
    if n > 0 {
      KeyRunPrefix(n - 1);
      KeyRunAppend([], Secret[..n - 1], [Secret[n - 1]]);
      assert Secret[..n - 1] + [Secret[n - 1]] == Secret[..n];
    }
  }

  /** Running two series of keys one after the other. */
  lemma {:induction false} KeyRunAppend(recent: seq<string>, xs: seq<string>, ys: seq<string>)
    requires KeysValid(recent)
    ensures KeyRun(recent, xs + ys) ==
      var a := KeyRun(recent, xs); var b := KeyRun(a.0, ys); (b.0, a.1 + b.1)
    decreases |xs|
  {
    if xs == [] {
      assert xs + ys == ys;
    } else {
      assert (xs + ys)[0] == xs[0] && (xs + ys)[1..] == xs[1..] + ys;
      KeyRunAppend(KeyStep(recent, xs[0]).0, xs[1..], ys);
    }
  }

  /** Typing the secret from a clean start completes it once and leaves nothing matched. */
  lemma SecretCompletes()
    ensures KeyRun([], Secret) == ([], 1)
  {
    var last := [Secret[10]];
    KeyRunPrefix(10);
    KeyRunAppend([], Secret[..10], last);
    assert Secret[..10] + last == Secret;
    assert KeyStep(Secret[..10], Secret[10]) == ([], true);
    assert last[1..] == [];
    assert KeyRun(Secret[..10], last) == ([], 1);
  }

  /** A third "ArrowUp" does not restart the match: it empties it. */
  lemma NoRestartOnRepeatedFirstKey()
    ensures KeyRun([], ["ArrowUp", "ArrowUp", "ArrowUp"]) == ([], 0)
  {
  }

  class App {
    var postcode: Option<string>
    var toasts: seq<Toast>
    var showInfo: bool
    var autoHide: bool
    var online: bool
    /** The keys of the secret matched so far (a closure variable in the source). */
    var recentKeys: seq<string>

    predicate Valid()
      reads this
    {
      KeysValid(recentKeys)
    }

    /** The constructor; `onLine` is `navigator.onLine`. */
    constructor(onLine: bool)
      ensures Valid()
      ensures postcode == None && toasts == [] && !showInfo && !autoHide && online == onLine
      ensures recentKeys == []
    {
      postcode := None;
      toasts := [];
      showInfo := false;
      autoHide := false;
      online := onLine;
      recentKeys := [];
    }

    /** `componentDidMount`: starting offline shows a toast. */
    method Mount(onLine: bool)
      requires Valid()
      modifies this
      ensures Valid()
      ensures !onLine ==> toasts == old(toasts) + [Toast(StartOfflineText, None)] && autoHide
      ensures onLine ==> toasts == old(toasts) && autoHide == old(autoHide)
      ensures postcode == old(postcode) && showInfo == old(showInfo) && online == old(online)
      ensures recentKeys == old(recentKeys)
    {
      if !onLine {
        AddToast(StartOfflineText, None);
      }
    }

    /** The keydown listener. */
    method KeyDown(key: string) returns (completed: bool)
      requires Valid()
      modifies this
      ensures Valid()
      ensures recentKeys == KeyStep(old(recentKeys), key).0
      ensures completed == KeyStep(old(recentKeys), key).1
      ensures postcode == old(postcode) && toasts == old(toasts) && showInfo == old(showInfo)
      ensures autoHide == old(autoHide) && online == old(online)
    {
      if Secret[|recentKeys|] == key {
        recentKeys := recentKeys + [key];
      } else {
        recentKeys := [];
      }
      completed := false;
      if |Secret| == |recentKeys| {
        completed := true;
        recentKeys := [];
      }
    }

    /** `updatePostcode`: the callback the search box reports to. */
    method UpdatePostcode(p: Option<string>)
      requires Valid()
      modifies this
      ensures Valid()
      ensures postcode == p
      ensures toasts == old(toasts) && showInfo == old(showInfo) && autoHide == old(autoHide)
      ensures online == old(online) && recentKeys == old(recentKeys)
    {
      postcode := p;
    }

    /** `addToast`: the toast goes to the back of the queue; `hides` (autoHide) defaults to true. */
    method AddToast(text: string, action: Option<ToastAction>, hides: bool := true)
      requires Valid()
      modifies this
      ensures Valid()
      ensures toasts == old(toasts) + [Toast(text, action)] && autoHide == hides
      ensures postcode == old(postcode) && showInfo == old(showInfo) && online == old(online)
      ensures recentKeys == old(recentKeys)
    {
      var copy := toasts;
      copy := copy + [Toast(text, action)];
      toasts := copy;
      autoHide := hides;
    }

    /** `dismissToast`: the toast at the front of the queue goes; an empty queue stays empty. */
    method DismissToast()
      requires Valid()
      modifies this
      ensures Valid()
      ensures old(toasts) == [] ==> toasts == []
      ensures old(toasts) != [] ==> toasts == old(toasts)[1..]
      ensures postcode == old(postcode) && showInfo == old(showInfo) && autoHide == old(autoHide)
      ensures online == old(online) && recentKeys == old(recentKeys)
    {
      if toasts != [] {
        toasts := toasts[1..];
      }
    }

    /** The "offline" event listener. */
    method GoOffline()
      requires Valid()
      modifies this
      ensures Valid()
      ensures !online && toasts == old(toasts) + [Toast(OfflineText, None)] && autoHide
      ensures postcode == old(postcode) && showInfo == old(showInfo) && recentKeys == old(recentKeys)
    {
      online := false;
      AddToast(OfflineText, None);
    }

    /** The "online" event listener. */
    method GoOnline()
      requires Valid()
      modifies this
      ensures Valid()
      ensures online && toasts == old(toasts) + [Toast(OnlineText, None)] && autoHide
      ensures postcode == old(postcode) && showInfo == old(showInfo) && recentKeys == old(recentKeys)
    {
      online := true;
      AddToast(OnlineText, None);
    }

    method ShowInfo()
      requires Valid()
      modifies this
      ensures Valid()
      ensures showInfo
      ensures postcode == old(postcode) && toasts == old(toasts) && autoHide == old(autoHide)
      ensures online == old(online) && recentKeys == old(recentKeys)
    {
      showInfo := true;
    }

    method HideInfo()
      requires Valid()
      modifies this
      ensures Valid()
      ensures !showInfo
      ensures postcode == old(postcode) && toasts == old(toasts) && autoHide == old(autoHide)
      ensures online == old(online) && recentKeys == old(recentKeys)
    {
      showInfo := false;
    }
  }
}
