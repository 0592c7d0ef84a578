/** App.tsx: the generation session. Its `useState` fields are the fields of `Session`,
    each handler is a method, and each asynchronous completion (the file read, the
    generation job, the auth subscription) is a method of its own that the outside
    world calls when it happens. */
module App {
  import opened Wrappers
  import opened JsStrings
  import opened FileUtils
  import AspectRatioSelector
  import VideoPlayer

  /** `AppState` */
  datatype AppState = Idle | ImageSelected | Generating | VideoReady | Error

  /** `LOADING_MESSAGES`, shown one after another while a video is generated. */
  const LoadingMessages: seq<string> := [
    "Warming up the AI director...",
    "Scouting for the perfect shot...",
    "Setting up the virtual cameras...",
    "Applying cinematic magic...",
    "This can take a few minutes, sit tight...",
    "Adding some extra stoke...",
    "Rendering the final cut..."
  ]

  const DefaultAspectRatio := "16:9"
  const UnknownErrorMessage := "An unknown error occurred."
  const AuthUnavailableMessage := "Authentication is not available. Please check the application configuration."
  const SignInFailedPrefix := "Failed to sign in: "

  /** No message appears twice in the list, so a message's position is determined. */
  lemma LoadingMessagesDistinct()
    ensures |LoadingMessages| == 7
    ensures forall i, j :: 0 <= i < j < |LoadingMessages| ==> LoadingMessages[i] != LoadingMessages[j]
  {
    var m := LoadingMessages;
    assert m[0][0] == 'W' && m[1][0] == 'S' && m[2][0] == 'S' && m[3][0] == 'A';
    assert m[4][0] == 'T' && m[5][0] == 'A' && m[6][0] == 'R';
    assert m[1][1] == 'c' && m[2][1] == 'e' && m[3][1] == 'p' && m[5][1] == 'd';
  }

  /** The interval's updater on a list `xs`: the entry after `prev`, cyclically; an
      entry not in the list has index -1, so it is followed by the first one. */
  function NextInCycle<T(==)>(xs: seq<T>, prev: T): (next: T)
    requires |xs| > 0
    ensures next in xs
    ensures prev !in xs ==> next == xs[0]
  {
    xs[(IndexOf(xs, prev) + 1) % |xs|]
  }

  /** The position reached from `i` after `n` single steps round a cycle of length `m`. */
  function Rotate(i: nat, n: nat, m: nat): (j: nat)
    requires i < m
    ensures j < m
  {
    if n == 0 then i
    else
      var k := Rotate(i, n - 1, m);
      if k + 1 < m then k + 1 else 0
  }

  /** Within one lap, rotating is adding and wrapping once. */
  lemma {:induction false} RotateWithinLap(i: nat, n: nat, m: nat)
    requires i < m && n <= m
    ensures Rotate(i, n, m) == if i + n < m then i + n else i + n - m
  {
    if n > 0 {
      RotateWithinLap(i, n - 1, m);
    }
  }

  /** One step of `(k + 1) % m` from a position below `m`. */
  lemma SuccMod(k: nat, m: nat)
    requires k < m
    ensures (k + 1) % m == if k + 1 < m then k + 1 else 0
  {
  }

  /** In a list without repeats, an entry is followed by the next position, wrapping. */
  lemma NextInCycleAdvances<T>(xs: seq<T>, i: nat)
    requires i < |xs|
    requires forall a, b :: 0 <= a < b < |xs| ==> xs[a] != xs[b]
    ensures NextInCycle(xs, xs[i]) == xs[(i + 1) % |xs|]
  {
  }

  /** The entry shown after `n` ticks. */
  function AfterTicks<T(==)>(xs: seq<T>, start: T, n: nat): (shown: T)
    requires |xs| > 0
    ensures n > 0 ==> shown in xs
  {
    if n == 0 then start else NextInCycle(xs, AfterTicks(xs, start, n - 1))
  }

  /** After `n` ticks, a listed entry has moved `n` single steps round the list. */
  lemma {:induction false} AfterTicksRotates<T>(xs: seq<T>, i: nat, n: nat)
    requires i < |xs|
    requires forall a, b :: 0 <= a < b < |xs| ==> xs[a] != xs[b]
    ensures AfterTicks(xs, xs[i], n) == xs[Rotate(i, n, |xs|)]
  {
    if n > 0 {
      AfterTicksRotates(xs, i, n - 1);
      var k := Rotate(i, n - 1, |xs|);
      NextInCycleAdvances(xs, k);
      SuccMod(k, |xs|);
    }
  }

  /** A whole lap of ticks brings a listed entry back. */
  lemma FullLapReturns<T>(xs: seq<T>, start: T)
    requires start in xs
    requires forall a, b :: 0 <= a < b < |xs| ==> xs[a] != xs[b]
    ensures AfterTicks(xs, start, |xs|) == start
  {
    var i :| 0 <= i < |xs| && xs[i] == start;
    AfterTicksRotates(xs, i, |xs|);
    RotateWithinLap(i, |xs|, |xs|);
  }

  /** The updater of App.tsx on `LOADING_MESSAGES`. */
  function NextLoadingMessage(prev: string): (next: string)
    ensures next in LoadingMessages
  {
    NextInCycle(LoadingMessages, prev)
  }

  /** A listed message advances by one position, wrapping after the seventh. */
  lemma NextAdvancesIndex(i: nat)
    requires i < |LoadingMessages|
    ensures NextLoadingMessage(LoadingMessages[i]) == LoadingMessages[(i + 1) % 7]
  {
    LoadingMessagesDistinct();
    NextInCycleAdvances(LoadingMessages, i);
  }

  /** An unlisted message is replaced by the first one. */
  lemma NextFromUnlisted(prev: string)
    requires prev !in LoadingMessages
    ensures NextLoadingMessage(prev) == LoadingMessages[0]
  {
  }

  /** Seven ticks bring a listed message back. */
  lemma SevenTicksReturn(message: string)
    requires message in LoadingMessages
    ensures AfterTicks(LoadingMessages, message, 7) == message
  {
    LoadingMessagesDistinct();
    FullLapReturns(LoadingMessages, message);
  }

  /** `isGenerateDisabled` */
  predicate IsGenerateDisabled(appState: AppState, prompt: string) {
    appState == Generating || Trim(prompt) == ""
  }

  /** The button is disabled exactly while generating or while the prompt is only white
      space. */
  lemma GenerateDisabledIff(appState: AppState, prompt: string)
    ensures IsGenerateDisabled(appState, prompt) <==> appState == Generating || Blank(prompt)
  {
    TrimEmptyIffBlank(prompt);
  }

  /** The guard at the top of `handleGenerateVideo`: `!imageFile || !prompt`. */
  predicate SubmitGuardPasses(imageFile: Option<File>, prompt: string) {
    imageFile.Some? && prompt != ""
  }

  /** A click starts a generation exactly when an image is present, the prompt has a
      character that is not white space, and no generation is running: the disabled
      button and the handler's own guard together. */
  lemma ClickEffectiveIff(appState: AppState, imageFile: Option<File>, prompt: string)
    ensures !IsGenerateDisabled(appState, prompt) && SubmitGuardPasses(imageFile, prompt) <==>
              imageFile.Some? && !Blank(prompt) && appState != Generating
  {
    GenerateDisabledIff(appState, prompt);
  }

  /** A signed-in user as the auth provider reports it. */
  datatype User = User(displayName: string, email: string, photoUrl: string)

  /** The arguments handed to `generateVideoFromImage` when a generation starts. */
  datatype Job = Job(file: File, prompt: string, aspectRatio: string)

  /** What `renderContent` draws. `Editor` is the uploader (given `imageDataUrl`), with
      the ratio selector, prompt box and button when `controls` holds, and the error
      panel with the text it shows when `errorPanel` is present; a null `error` renders
      as no text. */
  datatype Content =
    | LoadingIndicator(message: string)
    | Player(src: string, aspectRatioClass: string, widthClass: string)
    | NoContent
    | Editor(imageDataUrl: Option<string>, controls: bool, generateEnabled: bool, errorPanel: Option<string>)

  /** What `<main>` holds: the auth gate around the content. */
  datatype Screen = Initializing | Login | Main(content: Content)

  /** `renderContent` */
  function RenderContent(appState: AppState, imageDataUrl: Option<string>, prompt: string,
                         aspectRatio: string, videoUrl: Option<string>, error: Option<string>,
                         loadingMessage: string): (c: Content)
    ensures appState == Generating ==> c == LoadingIndicator(loadingMessage)
    ensures appState == VideoReady ==>
              (c.Player? <==> videoUrl.Some? && videoUrl.value != "") && (!c.Player? ==> c == NoContent)
    ensures c.Player? ==> videoUrl.Some? && c.src == videoUrl.value
                          && c.aspectRatioClass == VideoPlayer.AspectRatioClass(aspectRatio)
                          && c.widthClass == VideoPlayer.ContainerWidthClass(aspectRatio)
    ensures appState !in {Generating, VideoReady} ==>
              && c.Editor?
              && c.imageDataUrl == imageDataUrl
              && (c.controls <==> appState != Idle)
              && (c.generateEnabled <==> appState != Generating && !Blank(prompt))
              && (c.errorPanel.Some? <==> appState == Error)
    ensures c.Editor? && c.errorPanel.Some? ==> c.errorPanel.value == if error.Some? then error.value else ""
  {
    GenerateDisabledIff(appState, prompt);
    match appState
    case Generating => LoadingIndicator(loadingMessage)
    case VideoReady =>
      if videoUrl.Some? && videoUrl.value != "" then
        Player(videoUrl.value, VideoPlayer.AspectRatioClass(aspectRatio), VideoPlayer.ContainerWidthClass(aspectRatio))
      else NoContent
    case _ => Editor(imageDataUrl, appState != Idle, !IsGenerateDisabled(appState, prompt),
                  if appState != Error then None else Some(match error case Some(m) => m case None => ""))
  }

  /** The auth gate: a spinner while the auth state is unknown, then the content for a
      signed-in user or when authentication is not configured, and the login page
      otherwise. */
  function Gate(authLoading: bool, user: Option<User>, authConfigured: bool, content: Content): (s: Screen)
    ensures authLoading ==> s == Initializing
    ensures !authLoading ==> (s == Main(content) <==> user.Some? || !authConfigured)
    ensures !authLoading ==> (s == Login <==> user.None? && authConfigured)
  {
    if authLoading then Initializing
    else if user.Some? || !authConfigured then Main(content)
    else Login
  }

  /** The component's state. `authConfigured` stands for the module-level `auth` being
      non-null, which is fixed when the page loads. */
  class Session {
    var appState: AppState
    var imageFile: Option<File>
    var imageDataUrl: Option<string>
    var prompt: string
    var aspectRatio: string
    var videoUrl: Option<string>
    var error: Option<string>
    var loadingMessage: string
    var user: Option<User>
    var authLoading: bool
    const authConfigured: bool

    /** What every handler keeps: the ratio is one the selector offers, the message is
        one of the list, a generation has an image, a ready video has a URL, an error
        state has a message, and a stored message is never empty. */
    ghost predicate Valid()
      reads this
    {
      && aspectRatio in AspectRatioSelector.RatioValues
      && loadingMessage in LoadingMessages
      && (appState == Generating ==> imageFile.Some?)
      && (appState == VideoReady ==> videoUrl.Some?)
      && (appState == Error ==> error.Some?)
      && (error.Some? ==> error.value != "")
    }

    /** The initial `useState` values. */
    constructor (authConfigured: bool)
      ensures Valid()
      ensures this.authConfigured == authConfigured
      ensures appState == Idle && imageFile == None && imageDataUrl == None && prompt == ""
      ensures aspectRatio == DefaultAspectRatio && videoUrl == None && error == None
      ensures loadingMessage == LoadingMessages[0] && user == None && authLoading
    {
      this.authConfigured := authConfigured;
      appState := Idle;
      imageFile := None;
      imageDataUrl := None;
      prompt := "";
      aspectRatio := DefaultAspectRatio;
      videoUrl := None;
      error := None;
      loadingMessage := LoadingMessages[0];
      user := None;
      authLoading := true;
    }

    /** The mount effect: without auth there is nothing to wait for. */
    method MountAuth()
      requires Valid()
      modifies this
      ensures Valid()
      ensures authLoading == (old(authLoading) && authConfigured)
      ensures appState == old(appState) && imageFile == old(imageFile) && imageDataUrl == old(imageDataUrl)
      ensures prompt == old(prompt) && aspectRatio == old(aspectRatio) && videoUrl == old(videoUrl)
      ensures error == old(error) && loadingMessage == old(loadingMessage) && user == old(user)
    {
      if !authConfigured {
        authLoading := false;
      }
    }

    /** The `onAuthStateChanged` callback, registered only when auth exists. */
    method AuthStateChanged(currentUser: Option<User>)
      requires Valid() && authConfigured
      modifies this
      ensures Valid()
      ensures user == currentUser && !authLoading
      ensures appState == old(appState) && imageFile == old(imageFile) && imageDataUrl == old(imageDataUrl)
      ensures prompt == old(prompt) && aspectRatio == old(aspectRatio) && videoUrl == old(videoUrl)
      ensures error == old(error) && loadingMessage == old(loadingMessage)
    {
      user := currentUser;
      authLoading := false;
    }

    /** `handleImageUpload`: records the file and starts reading it; the preview only
        changes when the read completes (`ReadComplete`). */
    method UploadImage(file: File)
      requires Valid()
      modifies this
      ensures Valid()
      ensures imageFile == Some(file) && appState == ImageSelected
      ensures imageDataUrl == old(imageDataUrl) && prompt == old(prompt) && aspectRatio == old(aspectRatio)
      ensures videoUrl == old(videoUrl) && error == old(error) && loadingMessage == old(loadingMessage)
      ensures user == old(user) && authLoading == old(authLoading)
    {
      imageFile := Some(file);
      appState := ImageSelected;
    }

    /** The reader's `onloadend`: stores `reader.result` whatever the session has done
        meanwhile; a failed read leaves `null`. */
    method ReadComplete(result: Option<string>)
      requires Valid()
      modifies this
      ensures Valid()
      ensures imageDataUrl == result
      ensures appState == old(appState) && imageFile == old(imageFile) && prompt == old(prompt)
      ensures aspectRatio == old(aspectRatio) && videoUrl == old(videoUrl) && error == old(error)
      ensures loadingMessage == old(loadingMessage) && user == old(user) && authLoading == old(authLoading)
    {
      imageDataUrl := result;
    }

    /** The prompt box's `onChange`. */
    method EditPrompt(text: string)
      requires Valid()
      modifies this
      ensures Valid()
      ensures prompt == text
      ensures appState == old(appState) && imageFile == old(imageFile) && imageDataUrl == old(imageDataUrl)
      ensures aspectRatio == old(aspectRatio) && videoUrl == old(videoUrl) && error == old(error)
      ensures loadingMessage == old(loadingMessage) && user == old(user) && authLoading == old(authLoading)
    {
      prompt := text;
    }

    /** `onRatioChange` from the `i`-th button of the ratio selector. */
    method SelectAspectRatio(i: nat)
      requires Valid() && i < |AspectRatioSelector.Ratios|
      modifies this
      ensures Valid()
      ensures aspectRatio == AspectRatioSelector.Ratios[i].value
      ensures appState == old(appState) && imageFile == old(imageFile) && imageDataUrl == old(imageDataUrl)
      ensures prompt == old(prompt) && videoUrl == old(videoUrl) && error == old(error)
      ensures loadingMessage == old(loadingMessage) && user == old(user) && authLoading == old(authLoading)
    {
      aspectRatio := AspectRatioSelector.OnRatioClick(i);
    }

    /** The synchronous part of `handleGenerateVideo`, up to the `await`: without an
        image or with an empty prompt nothing changes; otherwise the session enters
        `Generating` and the returned job holds the arguments of the service call. */
    method SubmitGeneration() returns (job: Option<Job>)
      requires Valid()
      modifies this
      ensures Valid()
      ensures job.Some? <==> SubmitGuardPasses(old(imageFile), old(prompt))
      ensures job.Some? ==> job.value == Job(old(imageFile).value, old(prompt), old(aspectRatio))
      ensures appState == (if job.Some? then Generating else old(appState))
      ensures error == (if job.Some? then None else old(error))
      ensures loadingMessage == (if job.Some? then LoadingMessages[0] else old(loadingMessage))
      ensures imageFile == old(imageFile) && imageDataUrl == old(imageDataUrl) && prompt == old(prompt)
      ensures aspectRatio == old(aspectRatio) && videoUrl == old(videoUrl)
      ensures user == old(user) && authLoading == old(authLoading)
    {
      if !SubmitGuardPasses(imageFile, prompt) {
        return None;
      }
      appState := Generating;
      error := None;
      loadingMessage := LoadingMessages[0];
      job := Some(Job(imageFile.value, prompt, aspectRatio));
    }

    /** A click on the Generate button: a disabled button does nothing, an enabled one
        runs `handleGenerateVideo`. */
    method ClickGenerate() returns (job: Option<Job>)
      requires Valid()
      modifies this
      ensures Valid()
      ensures job.Some? <==> old(imageFile).Some? && !Blank(old(prompt)) && old(appState) != Generating
      ensures job.None? ==> appState == old(appState) && error == old(error) && loadingMessage == old(loadingMessage)
      ensures job.Some? ==> appState == Generating && error == None && loadingMessage == LoadingMessages[0]
                            && job.value == Job(old(imageFile).value, old(prompt), old(aspectRatio))
      ensures imageFile == old(imageFile) && imageDataUrl == old(imageDataUrl) && prompt == old(prompt)
      ensures aspectRatio == old(aspectRatio) && videoUrl == old(videoUrl)
      ensures user == old(user) && authLoading == old(authLoading)
    {
      ClickEffectiveIff(appState, imageFile, prompt);
      if IsGenerateDisabled(appState, prompt) {
        return None;
      }
      job := SubmitGeneration();
    }

    /** The rest of `handleGenerateVideo`, once `generateVideoFromImage` settles. The
        outcome is written whatever the session's state is by then: there is no check
        that this generation is still the current one. */
    method CompleteGeneration(outcome: Result<string, string>)
      requires Valid()
      modifies this
      ensures Valid()
      ensures outcome.Success? ==> appState == VideoReady && videoUrl == Some(outcome.value) && error == old(error)
      ensures outcome.Failure? ==> appState == Error && videoUrl == old(videoUrl)
      ensures outcome.Failure? ==>
                error == Some(if outcome.error != "" then outcome.error else UnknownErrorMessage)
      ensures imageFile == old(imageFile) && imageDataUrl == old(imageDataUrl) && prompt == old(prompt)
      ensures aspectRatio == old(aspectRatio) && loadingMessage == old(loadingMessage)
      ensures user == old(user) && authLoading == old(authLoading)
    {
      match outcome
      case Success(url) =>
        videoUrl := Some(url);
        appState := VideoReady;
      case Failure(message) =>
        error := Some(if message != "" then message else UnknownErrorMessage);
        appState := Error;
    }

    /** `handleReset`: back to the initial values, except the loading message. */
    method Reset()
      requires Valid()
      modifies this
      ensures Valid()
      ensures appState == Idle && imageFile == None && imageDataUrl == None && prompt == ""
      ensures videoUrl == None && error == None && aspectRatio == DefaultAspectRatio
      ensures loadingMessage == old(loadingMessage) && user == old(user) && authLoading == old(authLoading)
    {
      appState := Idle;
      imageFile := None;
      imageDataUrl := None;
      prompt := "";
      videoUrl := None;
      error := None;
      aspectRatio := DefaultAspectRatio;
    }

    /** `handleGoogleSignIn`; `popupError` is the message `signInWithPopup` rejects
        with, if it does. A successful sign-in shows up later through
        `AuthStateChanged`. */
    method GoogleSignIn(popupError: Option<string>)
      requires Valid()
      modifies this
      ensures Valid()
      ensures !authConfigured ==> appState == Error && error == Some(AuthUnavailableMessage)
      ensures authConfigured && popupError.Some? ==>
                appState == Error && error == Some(SignInFailedPrefix + popupError.value)
      ensures authConfigured && popupError.None? ==> appState == old(appState) && error == old(error)
      ensures imageFile == old(imageFile) && imageDataUrl == old(imageDataUrl) && prompt == old(prompt)
      ensures aspectRatio == old(aspectRatio) && videoUrl == old(videoUrl) && loadingMessage == old(loadingMessage)
      ensures user == old(user) && authLoading == old(authLoading)
    {
      if !authConfigured {
        error := Some(AuthUnavailableMessage);
        appState := Error;
        return;
      }
      if popupError.Some? {
        error := Some(SignInFailedPrefix + popupError.value);
        appState := Error;
      }
    }

    /** `handleSignOut`: without auth nothing happens; a successful `signOut` resets the
        session and a failed one is only logged. */
    method SignOut(signOutFails: bool)
      requires Valid()
      modifies this
      ensures Valid()
      ensures authConfigured && !signOutFails ==>
                appState == Idle && imageFile == None && imageDataUrl == None && prompt == ""
                && videoUrl == None && error == None && aspectRatio == DefaultAspectRatio
      ensures !authConfigured || signOutFails ==>
                appState == old(appState) && imageFile == old(imageFile) && imageDataUrl == old(imageDataUrl)
                && prompt == old(prompt) && videoUrl == old(videoUrl) && error == old(error)
                && aspectRatio == old(aspectRatio)
      ensures loadingMessage == old(loadingMessage) && user == old(user) && authLoading == old(authLoading)
    {
      if !authConfigured || signOutFails {
        return;
      }
      Reset();
    }

    /** One firing of the 3-second interval. The interval exists only while the state
        is `Generating`; in any other state there is no timer to fire. */
    method Tick()
      requires Valid()
      modifies this
      ensures Valid()
      ensures old(appState) == Generating ==> loadingMessage == NextLoadingMessage(old(loadingMessage))
      ensures old(appState) != Generating ==> loadingMessage == old(loadingMessage)
      ensures appState == old(appState) && imageFile == old(imageFile) && imageDataUrl == old(imageDataUrl)
      ensures prompt == old(prompt) && aspectRatio == old(aspectRatio) && videoUrl == old(videoUrl)
      ensures error == old(error) && user == old(user) && authLoading == old(authLoading)
    {
      if appState == Generating {
        loadingMessage := NextLoadingMessage(loadingMessage);
      }
    }

    /** What the page shows in its current state. */
    function View(): (s: Screen)
      reads this
      ensures authLoading ==> s == Initializing
      ensures !authLoading && (user.Some? || !authConfigured) ==>
                s == Main(RenderContent(appState, imageDataUrl, prompt, aspectRatio, videoUrl, error, loadingMessage))
      ensures !authLoading && user.None? && authConfigured ==> s == Login
    {
      Gate(authLoading, user, authConfigured,
           RenderContent(appState, imageDataUrl, prompt, aspectRatio, videoUrl, error, loadingMessage))
    }

    /** In a valid session the error panel is drawn exactly in the Error state, once the
        gate lets the content through, and it always shows the stored, non-empty message. */
    lemma ErrorPanelShowsMessage()
      requires Valid()
      ensures View().Main? ==> View().content.Editor? || appState != Error
      ensures View().Main? && View().content.Editor? ==>
                (View().content.errorPanel.Some? <==> appState == Error)
      ensures View().Main? && View().content.Editor? && View().content.errorPanel.Some? ==>
                error.Some? && error.value != "" && View().content.errorPanel.value == error.value
    {
    }
  }

  /** A late completion is not discarded: a generation that settles after the user
      started over still fills in the video and shows it. */
  method LateCompletionAfterReset(file: File, url: string)
  {
    var session := new Session(false);
    session.UploadImage(file);
    session.EditPrompt("a car at night");
    var job := session.ClickGenerate();
    assert !Blank("a car at night") by { assert !IsWhiteSpace("a car at night"[0]); }
    assert job == Some(Job(file, "a car at night", DefaultAspectRatio));
    session.Reset();
    assert session.appState == Idle && session.imageFile == None;
    session.CompleteGeneration(Success(url));
    assert session.appState == VideoReady && session.videoUrl == Some(url);
  }
}
