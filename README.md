# CatLib kernel core, modelled in Dafny

This project models the core of the CatLib application framework:

- **Application** (`Application.dfy`): the application kernel's process state machine.
  - `Bootstrap` runs the ordered bootstrap stages, which register service providers.
  - `Init` runs every provider's init step in ascending priority, stable on ties, then fires the start-completed event.
  - `GetGuid` hands out fresh identifiers.
  - `On` and `Trigger` forward to the event dispatcher when one is installed.
- **Wrappers** (`Wrappers.dfy`): the optional value, the exceptions and the outcome types the other modules share, and one sequence lemma.
- **Events** (`Events.dfy`): the event dispatcher.
  - Listeners are kept per event name in ascending priority.
  - A listener registered with a count answers that many triggers and is then dropped.
  - A halting trigger stops at the first non-null answer; a full trigger collects every answer.
- **Ordering** (`Ordering.dfy`): the stable priority order that providers and listeners share, written as an insertion sort. Its lemmas prove the result sorted, a permutation of the input, and stable.
- **Driver** (`Driver.dfy`): the per-tick object driver and the container bridged to it.
  - The driver keeps the attached objects without duplicates and calls their update, late-update and destroy hooks.
  - Main-thread work runs at once when called on the main thread and is queued otherwise.
  - The container caches singletons per key. A singleton it builds is attached to the driver; a singleton it releases is detached and the key's release callbacks run.
  - Tearing the driver down releases or detaches every attached object, running each destroy hook once.
- **Str** (`Str.dfy`): the string helpers `Split`, `Repeat`, `Reverse`, `SubstringCount`, `RegexQuote`, `AsteriskWildcard` and `Is`. They are pure functions. Lemmas give the round trips (joining the chunks, unquoting) and characterise `Is` as anchored `*`-wildcard matching. `RegexQuote` escapes a fixed set of 21 metacharacters, the set of PHP's `preg_quote`. `StrTests.cs:34` exercises only `( ) . * ?`, and `Str.cs` is not part of this model, so the rest of `Str.Meta` is not pinned down by the cited lines.
- **SizeMonitor** (`SizeMonitor.dfy`): the byte-size monitor handler, which shows a reading in the first unit of an ascending threshold table whose key exceeds the reading. The handler fills its table as a `Dictionary` and scans it for the first key above the reading (`SizeMonitorHandler.cs:64-72`, `:82`). The model keeps the rows in insertion order, which is what the scan relies on; .NET does not promise that a `Dictionary` enumerates in insertion order.
- **Configuration** (`Configuration.dfy`): the configuration manager.
  - It keeps a default name, one factory per name and a cache of built objects.
  - An absent or empty name means the default name, and an empty default name means "default".
  - A configuration object stores values and calls the watchers of a key, in registration order, when that key is set.

The kernel's implementation files are not part of this model. Their behaviour is taken from the assertions of the test files cited below, and from `SizeMonitorHandler.cs`, which is modelled directly.

Decisions the tests pin down:

- Duplicate providers are refused by provider type, not by provider instance: `ApplicationTests.cs:209-225` registers two distinct `ProviderTest1` objects and expects the second call to fail.
- Attaching an object twice is a runtime error (`DriverTests.cs:221-234`).
- A provider's register step runs when the provider is registered, not deferred to `Init`. `StartBootstrap.cs` calls `App.On` during bootstrap, so the dispatcher the events provider installs must exist by then.
- `Register` is accepted until `Init` starts, so it also works inside a bootstrap stage (`ApplicationTests.cs:284-291`).
- The tests pin down three results of `Trigger`:
  - a halting trigger with one listener answering 123 returns 123 itself, not wrapped (`ApplicationTests.cs:238`);
  - without a dispatcher, a halting trigger returns null (`:260-261`);
  - without a dispatcher, a full trigger returns an empty array (`:262-263`).

  The other results are choices of this model. With halt, `Trigger` returns the first non-null answer, or null when there is none. Without halt, it returns the array of all answers.

## Model

| member | source | states |
|---|---|---|
| Ordering.SortPermutes | CatLib.Unity/Assets/CatLib.Test/Editor/CatLib/ApplicationTests.cs:159-172 | the priority order holds exactly the registered elements, each as often as registered |
| Ordering.SortSorted | CatLib.Unity/Assets/CatLib.Test/Editor/CatLib/ApplicationTests.cs:159-172 | the priority order is ascending in priority |
| Ordering.SortStable | CatLib.Unity/Assets/CatLib.Test/Editor/CatLib/ApplicationTests.cs:159-172 | elements of equal priority keep their registration order |
| Ordering.SortBy | CatLib.Unity/Assets/CatLib.Test/Editor/CatLib/ApplicationTests.cs:159-172 | the priority order has as many elements as the input; its partners Ordering.SortPermutes, Ordering.SortSorted and Ordering.SortStable prove it an ascending, stable permutation |
| Ordering.InsertSorted | CatLib.Unity/Assets/CatLib.Test/Editor/MonoDriver/DriverTests.cs:272-284 | inserting a new listener into a priority-ordered list keeps it ordered |
| Ordering.InsertKeepsTies | CatLib.Unity/Assets/CatLib.Test/Editor/MonoDriver/DriverTests.cs:272-284 | a new element goes behind every element of its priority, and the others of that priority do not move |
| Events.FirstAnswer | CatLib.Unity/Assets/CatLib.Test/Editor/CatLib/ApplicationTests.cs:227-240 | the index of the first listener with a non-null answer; every earlier answer is null; with no index, every answer is null |
| Events.Dispatcher.constructor | CatLib.Unity/Assets/CatLib.Test/Editor/MonoDriver/DriverTests.cs:365-373 | the dispatcher the events provider installs starts with no listeners and no calls |
| Events.Dispatcher.On | CatLib.Unity/Assets/CatLib.Test/Editor/MonoDriver/DriverTests.cs:272-284 | the listener is inserted into the event's priority order with its count; the handle names the event and a new id; no listener is called |
| Events.Dispatcher.Trigger | CatLib.Unity/Assets/CatLib.Test/Editor/MonoDriver/DriverTests.cs:272-322 | the result is the halting or full outcome of the event's listeners; exactly the invoked listeners are called, in order, with the payload; each invoked listener spends one answer, one on its last answer is gone, and the list stays priority-ordered with distinct ids |
| Events.Outcome | CatLib.Unity/Assets/CatLib.Test/Editor/CatLib/ApplicationTests.cs:227-264 | a full trigger answers an array; a halting one answers null if and only if every listener answers null |
| Events.Invoke | CatLib.Unity/Assets/CatLib.Test/Editor/CatLib/ApplicationTests.cs:227-240 | the listeners run in order, and a halting run stops right after the first non-null answer, which it returns; returns the answers and what is left of the invoked listeners |
| Events.SpendKeepsOrder | CatLib.Unity/Assets/CatLib.Test/Editor/MonoDriver/DriverTests.cs:290-301 | what a trigger leaves behind is still in priority order |
| Events.SpendSurvivor | CatLib.Unity/Assets/CatLib.Test/Editor/MonoDriver/DriverTests.cs:290-301 | every listener left after a trigger was there before, with one answer fewer unless its answers are unlimited |
| Events.Remaining | CatLib.Unity/Assets/CatLib.Test/Editor/MonoDriver/DriverTests.cs:290-301 | what a trigger leaves of an ordered list with distinct ids is again ordered, with distinct ids that were handed out before, and holds no listener invoked on its last answer |
| Events.TriggerExpires | CatLib.Unity/Assets/CatLib.Test/Editor/MonoDriver/DriverTests.cs:290-301 | after a trigger, no listener remains with the id of an invoked listener that was on its last answer |
| Events.InsertFresh | CatLib.Unity/Assets/CatLib.Test/Editor/MonoDriver/DriverTests.cs:272-284 | registering a listener under a new id keeps the ids of the event's listeners distinct and adds only that listener |
| Events.SpendUnique | CatLib.Unity/Assets/CatLib.Test/Editor/MonoDriver/DriverTests.cs:290-301 | spending the invoked listeners keeps the ids of the event's listeners distinct |
| Events.SpendExpires | CatLib.Unity/Assets/CatLib.Test/Editor/MonoDriver/DriverTests.cs:290-301 | a listener with one answer left is gone after it answers |
| Events.CallsCarryPayload | CatLib.Unity/Assets/CatLib.Test/Editor/MonoDriver/DriverTests.cs:307-322 | invocation k goes to listener k and carries the trigger's payload unchanged |
| Events.SingleListenerHalt | CatLib.Unity/Assets/CatLib.Test/Editor/CatLib/ApplicationTests.cs:227-240 | a halting trigger with one listener returns that listener's answer unwrapped and invokes it once |
| Events.AllAnswers | CatLib.Unity/Assets/CatLib.Test/Editor/CatLib/ApplicationTests.cs:260-263 | a full trigger returns an array with one answer per listener, in listener order |
| Events.OneShotListener | CatLib.Unity/Assets/CatLib.Test/Editor/MonoDriver/DriverTests.cs:290-301 | a listener with count 1 is called once over two triggers, with the payload, and the second trigger finds no listener |
| Application.Application.constructor | CatLib.Unity/Assets/CatLib.Test/Editor/CatLib/ApplicationTests.cs:44-53 | a new application is Uninitialized, with no providers, no steps, no identifiers handed out and no dispatcher |
| Application.Application.Register | CatLib.Unity/Assets/CatLib.Test/Editor/CatLib/ApplicationTests.cs:190-225 | a null provider is an argument error; a known type, or a call once Init has started, is a runtime error; otherwise the provider is appended and its register step logged; only the events provider installs a fresh, empty dispatcher |
| Application.Application.Bootstrap | CatLib.Unity/Assets/CatLib.Test/Editor/CatLib/ApplicationTests.cs:78-86 | a null stage list is an argument error; a bootstrap after the first changes nothing; otherwise succeeds exactly when all provider types are distinct, registering every stage's providers in order, logging their register steps in that order, and ending Bootstrapped; when a stage holds the events provider and there was no dispatcher, a fresh one with no listeners and no calls is installed |
| Application.Application.Init | CatLib.Unity/Assets/CatLib.Test/Editor/CatLib/ApplicationTests.cs:30-53 | fails with a runtime error, changing nothing, unless Bootstrapped; otherwise logs the init steps of the providers in priority order, ends Inited, and fires start-completed to every listener |
| Application.Application.RunInits | CatLib.Unity/Assets/CatLib.Test/Editor/CatLib/ApplicationTests.cs:128-154 | the init steps of the given providers are logged in their order, one per provider |
| Application.Application.GetGuid | CatLib.Unity/Assets/CatLib.Test/Editor/CatLib/ApplicationTests.cs:119-124 | the identifier differs from every one handed out before |
| Application.Application.On | CatLib.Unity/Assets/CatLib.Test/Editor/CatLib/ApplicationTests.cs:242-258 | without a dispatcher there is no handle; with one, the listener is inserted in priority order under a new id, and no listener is called |
| Application.Application.Trigger | CatLib.Unity/Assets/CatLib.Test/Editor/CatLib/ApplicationTests.cs:227-264 | without a dispatcher the result is null when halting and an empty array otherwise; with one it is the dispatcher's outcome, exactly the invoked listeners are called with the payload, and each of them spends one answer |
| Application.DuplicateStaysDuplicate | CatLib.Unity/Assets/CatLib.Test/Editor/CatLib/ApplicationTests.cs:209-225 | a provider whose type is already registered makes the whole registration sequence non-unique |
| Application.NoDispatcherLikeNoListeners | CatLib.Unity/Assets/CatLib.Test/Editor/CatLib/ApplicationTests.cs:242-264 | without a dispatcher, Trigger answers as a dispatcher with no listeners would |
| Application.InitOrderExample | CatLib.Unity/Assets/CatLib.Test/Editor/CatLib/ApplicationTests.cs:156-172 | the priority-5 provider, registered second, is initialized before the priority-10 provider |
| Application.InitStepsOrdered | CatLib.Unity/Assets/CatLib.Test/Editor/CatLib/ApplicationTests.cs:159-172 | Init's step k initializes the k-th provider of an ascending-priority permutation of the registered providers |
| Application.RepeatInit | CatLib.Unity/Assets/CatLib.Test/Editor/CatLib/ApplicationTests.cs:30-39 | a second Init fails with a runtime error |
| Application.InitWithoutBootstrap | CatLib.Unity/Assets/CatLib.Test/Editor/CatLib/ApplicationTests.cs:44-53 | Init without a bootstrap fails with a runtime error |
| Application.RepeatBootstrap | CatLib.Unity/Assets/CatLib.Test/Editor/CatLib/ApplicationTests.cs:78-86 | a bootstrap after Init succeeds and the process stays Inited |
| Application.RegisterNull | CatLib.Unity/Assets/CatLib.Test/Editor/CatLib/ApplicationTests.cs:91-100 | registering a null provider is an argument error |
| Application.BootstrapNull | CatLib.Unity/Assets/CatLib.Test/Editor/CatLib/ApplicationTests.cs:177-185 | a null bootstrap list is an argument error and the process stays Uninitialized |
| Application.RegisterAfterStart | CatLib.Unity/Assets/CatLib.Test/Editor/CatLib/ApplicationTests.cs:105-114 | registering a provider on a started application is a runtime error |
| Application.RegisterAfterInit | CatLib.Unity/Assets/CatLib.Test/Editor/CatLib/ApplicationTests.cs:190-207 | a new provider type registered after Init is a runtime error |
| Application.RegisterSameTypeTwice | CatLib.Unity/Assets/CatLib.Test/Editor/CatLib/ApplicationTests.cs:209-225 | a second provider of a registered type is a runtime error |
| Application.TwoGuids | CatLib.Unity/Assets/CatLib.Test/Editor/CatLib/ApplicationTests.cs:119-124 | two identifiers in a row differ |
| Application.TestProviders | CatLib.Unity/Assets/CatLib.Test/Editor/CatLib/ApplicationTests.cs:288-290 | the test application's providers are three, one of them the events provider |
| Application.TestProvidersUnique | CatLib.Unity/Assets/CatLib.Test/Editor/CatLib/ApplicationTests.cs:288-290 | the test providers have distinct types |
| Application.BootstrappedWithEvents | CatLib.Unity/Assets/CatLib.Test/Editor/CatLib/ApplicationTests.cs:273-292 | bootstrapping the configuration, converters and events providers in one stage registers them in order, logs their register steps, and installs a dispatcher with no listeners and no calls |
| Application.InitedWithEvents | CatLib.Unity/Assets/CatLib.Test/Editor/CatLib/ApplicationTests.cs:273-292 | once initialized, that application is Inited with the same providers, and its dispatcher still has no listeners and no calls |
| Application.TriggerWithDispatcher | CatLib.Unity/Assets/CatLib.Test/Editor/CatLib/ApplicationTests.cs:227-240 | a halting trigger returns the single listener's 123 unwrapped; the listener was called once, with the payload "abc" |
| Application.TriggerWithoutDispatcher | CatLib.Unity/Assets/CatLib.Test/Editor/CatLib/ApplicationTests.cs:242-264 | without a dispatcher On gives no handle, a halting trigger gives null and a full trigger an empty array |
| Driver.Without | CatLib.Unity/Assets/CatLib.Test/Editor/MonoDriver/DriverTests.cs:127-144 | the result omits the object, keeps every other element, and adds none |
| Driver.MonoDriver.constructor | CatLib.Unity/Assets/CatLib.Test/Editor/MonoDriver/DriverTests.cs:365-373 | the driver the driver provider installs has no attached objects, no queued work and no recorded calls |
| Driver.Container.constructor | CatLib.Unity/Assets/CatLib.Test/Editor/MonoDriver/DriverTests.cs:365-373 | the application's container starts with no bindings, no instances and no release callbacks fired, over a fresh, empty driver |
| Driver.MonoDriver.Attach | CatLib.Unity/Assets/CatLib.Test/Editor/MonoDriver/DriverTests.cs:221-234 | an attached object is refused with a runtime error and nothing changes; otherwise an object with a hook is appended; the attached objects stay distinct |
| Driver.MonoDriver.Detach | CatLib.Unity/Assets/CatLib.Test/Editor/MonoDriver/DriverTests.cs:255-267 | the object is removed and its destroy hook runs exactly when it was attached; an unattached object changes nothing |
| Driver.MonoDriver.Run | CatLib.Unity/Assets/CatLib.Test/Editor/MonoDriver/DriverTests.cs:187-202 | an action or every step of a coroutine has run, in order, when the call returns |
| Driver.MonoDriver.MainThread | CatLib.Unity/Assets/CatLib.Test/Editor/MonoDriver/DriverTests.cs:173-185 | on the main thread the work has run on return; elsewhere it is queued and nothing runs |
| Driver.MonoDriver.StartCoroutine | CatLib.Unity/Assets/CatLib.Test/Editor/MonoDriver/DriverTests.cs:204-216 | every step of the coroutine has run on return |
| Driver.MonoDriver.Broadcast | CatLib.Unity/Assets/CatLib.Test/Editor/MonoDriver/DriverTests.cs:146-168 | the hook is called on every attached object that has it, in attach order |
| Driver.MonoDriver.Update | CatLib.Unity/Assets/CatLib.Test/Editor/MonoDriver/DriverTests.cs:130-144 | the queued work runs first in, first out, and the queue empties; then every update hook runs |
| Driver.MonoDriver.LateUpdate | CatLib.Unity/Assets/CatLib.Test/Editor/MonoDriver/DriverTests.cs:146-168 | every late-update hook runs, in attach order |
| Driver.MonoDriver.OnDestroy | CatLib.Unity/Assets/CatLib.Test/Editor/MonoDriver/DriverTests.cs:337-357 | nothing stays attached; each destroy hook runs once, in attach order; exactly the cache entries holding an attached object are dropped, and the release callbacks of exactly those keys run |
| Driver.MonoDriver.Retire | CatLib.Unity/Assets/CatLib.Test/Editor/MonoDriver/DriverTests.cs:337-357 | the first attached object is released through the container, or else detached; its destroy hook runs once |
| Driver.Container.Bind | CatLib.Unity/Assets/CatLib.Test/Editor/MonoDriver/DriverTests.cs:73-84 | an empty key is an argument error and a bound key a duplicate-binding error; otherwise the binding is added with no release callbacks |
| Driver.Container.OnRelease | CatLib.Unity/Assets/CatLib.Test/Editor/MonoDriver/DriverTests.cs:340-351 | the callback is appended to the key's release callbacks |
| Driver.Container.Make | CatLib.Unity/Assets/CatLib.Test/Editor/MonoDriver/DriverTests.cs:73-84 | a cached instance comes back unchanged; an unbound key is not found; otherwise a new object is built, and for a singleton it is cached and attached if it has a hook |
| Driver.Container.Release | CatLib.Unity/Assets/CatLib.Test/Editor/MonoDriver/DriverTests.cs:86-102 | the key's cache entry is dropped; a cached object has its release callbacks run and is detached, and only then is the result true |
| Driver.Container.Instance | CatLib.Unity/Assets/CatLib.Test/Editor/MonoDriver/DriverTests.cs:104-125 | the previous cached object is released and detached, then the new value, possibly null, is cached |
| Driver.Container.ReleaseComponent | CatLib.Unity/Assets/CatLib.Test/Editor/MonoDriver/DriverTests.cs:337-357 | exactly the keys caching the object are released, each once, with their release callbacks; the object is detached once |
| Driver.DetachedTwice | CatLib.Unity/Assets/CatLib.Test/Editor/MonoDriver/DriverTests.cs:337-357 | a second detach of the same object adds no destroy call |
| Driver.WithoutAbsent | CatLib.Unity/Assets/CatLib.Test/Editor/MonoDriver/DriverTests.cs:258-267 | removing an object that is not attached leaves the attached objects as they are |
| Driver.WithoutDistinct | CatLib.Unity/Assets/CatLib.Test/Editor/MonoDriver/DriverTests.cs:221-234 | removing an object keeps the attached objects distinct |
| Driver.AttachDetach | CatLib.Unity/Assets/CatLib.Test/Editor/MonoDriver/DriverTests.cs:130-144 | attaching and then detaching an object restores the attached objects |
| Driver.FireReaches | CatLib.Unity/Assets/CatLib.Test/Editor/MonoDriver/DriverTests.cs:146-168 | a hook call reaches an object exactly when it is attached and has the hook |
| Driver.FireOnce | CatLib.Unity/Assets/CatLib.Test/Editor/MonoDriver/DriverTests.cs:337-357 | over distinct attached objects, each object's hook is called once, or never if it lacks the hook |
| Driver.DetachStopsUpdate | CatLib.Unity/Assets/CatLib.Test/Editor/MonoDriver/DriverTests.cs:130-144 | after a detach, an update does not reach the object |
| Driver.DrainAppend | CatLib.Unity/Assets/CatLib.Test/Editor/MonoDriver/DriverTests.cs:173-202 | queued work runs first in, first out |
| Driver.MadeSingleton | CatLib.Unity/Assets/CatLib.Test/Editor/MonoDriver/DriverTests.cs:73-84 | making a bound singleton caches it and attaches it to the driver |
| Driver.MakeAttaches | CatLib.Unity/Assets/CatLib.Test/Editor/MonoDriver/DriverTests.cs:73-84 | the next update reaches the made singleton |
| Driver.ReleaseDetaches | CatLib.Unity/Assets/CatLib.Test/Editor/MonoDriver/DriverTests.cs:89-102 | releasing the singleton runs its destroy hook, and the next update does not reach it |
| Driver.InstanceNullDetaches | CatLib.Unity/Assets/CatLib.Test/Editor/MonoDriver/DriverTests.cs:107-125 | replacing the singleton by null detaches it; a later release finds nothing and does not fail |
| Driver.UpdateLateUpdateDetach | CatLib.Unity/Assets/CatLib.Test/Editor/MonoDriver/DriverTests.cs:149-168 | update comes before late update; after the detach only the destroy hook has run, and later frames add nothing |
| Driver.AttachTwice | CatLib.Unity/Assets/CatLib.Test/Editor/MonoDriver/DriverTests.cs:221-234 | the second attach of the same object is a runtime error |
| Driver.DetachUnattached | CatLib.Unity/Assets/CatLib.Test/Editor/MonoDriver/DriverTests.cs:258-267 | detaching an object never attached runs no hook |
| Driver.MainThreadRuns | CatLib.Unity/Assets/CatLib.Test/Editor/MonoDriver/DriverTests.cs:173-216 | main-thread work and a started coroutine have run on return |
| Driver.TeardownEmpties | CatLib.Unity/Assets/CatLib.Test/Editor/MonoDriver/DriverTests.cs:239-253 | after the driver is torn down, an update reaches nothing |
| Driver.TeardownReleasesOnce | CatLib.Unity/Assets/CatLib.Test/Editor/MonoDriver/DriverTests.cs:340-357 | teardown runs the singleton's release callback once and its destroy hook once |
| Str.Split | CatLib.VS/CatLib.Tests/Support/Util/StrTests.cs:56-89 | the empty string gives no chunks; every chunk but the last has n characters, and the last has between 1 and n |
| Str.SplitCount | CatLib.VS/CatLib.Tests/Support/Util/StrTests.cs:56-81 | the number of chunks is the length divided by n, rounded up |
| Str.SplitConcat | CatLib.VS/CatLib.Tests/Support/Util/StrTests.cs:56-81 | joining the chunks gives back the input |
| Str.SplitRepeat | CatLib.VS/CatLib.Tests/Support/Util/StrTests.cs:56-96 | splitting k copies of s at the length of s gives the k copies |
| Str.Repeat | CatLib.VS/CatLib.Tests/Support/Util/StrTests.cs:91-96 | the result is k times as long as s |
| Str.RepeatAdd | CatLib.VS/CatLib.Tests/Support/Util/StrTests.cs:91-96 | a + b copies are a copies followed by b copies |
| Str.Reverse | CatLib.VS/CatLib.Tests/Support/Util/StrTests.cs:157-162 | character i of the result is character n-1-i of the input |
| Str.ReverseReverse | CatLib.VS/CatLib.Tests/Support/Util/StrTests.cs:157-162 | reversing twice gives back the input |
| Str.ReverseAppend | CatLib.VS/CatLib.Tests/Support/Util/StrTests.cs:157-162 | the reverse of a + b is the reverse of b followed by the reverse of a |
| Str.Occurrences | CatLib.VS/CatLib.Tests/Support/Util/StrTests.cs:121-141 | the non-overlapping occurrences fit into the searched text |
| Str.Window | CatLib.VS/CatLib.Tests/Support/Util/StrTests.cs:130-134 | the window lies inside the string; a non-negative start is clamped to the length; a missing length runs to the end; a non-negative length is clamped to what is left |
| Str.SubstringCount | CatLib.VS/CatLib.Tests/Support/Util/StrTests.cs:143-155 | the count fits into the string, and a start at or past the end counts 0 |
| Str.OccurrencesPrefix | CatLib.VS/CatLib.Tests/Support/Util/StrTests.cs:121-141 | a leading occurrence counts once and the search resumes behind it |
| Str.OccurrencesRepeat | CatLib.VS/CatLib.Tests/Support/Util/StrTests.cs:121-141 | k back-to-back copies of the needle count k |
| Str.NonOverlapping | CatLib.VS/CatLib.Tests/Support/Util/StrTests.cs:139-140 | "abcab" occurs once in "abcabcab", although a second, overlapping copy starts at index 3 |
| Str.RegexQuote | CatLib.VS/CatLib.Tests/Support/Util/StrTests.cs:28-35 | text without metacharacters is kept as it is; quoting at most doubles the length |
| Str.QuoteAppend | CatLib.VS/CatLib.Tests/Support/Util/StrTests.cs:28-35 | quoting a concatenation concatenates the quoted parts |
| Str.QuoteInPlace | CatLib.VS/CatLib.Tests/Support/Util/StrTests.cs:28-35 | each character is quoted in place: a metacharacter gets a backslash in front, any other character is kept |
| Str.QuoteRoundTrip | CatLib.VS/CatLib.Tests/Support/Util/StrTests.cs:28-35 | removing one level of escaping gives back the quoted text |
| Str.AsteriskWildcard | CatLib.VS/CatLib.Tests/Support/Util/StrTests.cs:37-44 | the pattern is quoted character by character, with each `*` becoming the lazy `.*?` |
| Str.AsteriskWildcardPerChar | CatLib.VS/CatLib.Tests/Support/Util/StrTests.cs:37-44 | quoting the pattern and then replacing each quoted `*` is the same as translating it character by character |
| Str.RegexMatch | CatLib.VS/CatLib.Tests/Support/Util/StrTests.cs:43-54 | anchored matching of the expressions AsteriskWildcard produces; its partner Str.PerCharMeansGlob proves it agrees with wildcard matching |
| Str.PerCharMeansGlob | CatLib.VS/CatLib.Tests/Support/Util/StrTests.cs:46-54 | the character-by-character regular expression matches exactly what the wildcard pattern matches |
| Str.Is | CatLib.VS/CatLib.Tests/Support/Util/StrTests.cs:46-54 | Is is anchored whole-string wildcard matching: `*` matches any run, every other character itself |
| Str.GlobLiteral | CatLib.VS/CatLib.Tests/Support/Util/StrTests.cs:46-54 | a pattern without `*` matches exactly itself |
| Str.OneStar | CatLib.VS/CatLib.Tests/Support/Util/StrTests.cs:46-54 | with one star between literal parts, a string matches if and only if it starts with the part before the star and ends with the part after it |
| Str.IsOneStar | CatLib.VS/CatLib.Tests/Support/Util/StrTests.cs:46-54 | the same holds for Is |
| Str.ExamplePattern | CatLib.VS/CatLib.Tests/Support/Util/StrTests.cs:46-54 | a string matches "path.?+/hello/w*d" if and only if it has at least 16 characters, starts with "path.?+/hello/w" and ends with 'd' |
| Str.IsMatchesRun | CatLib.VS/CatLib.Tests/Support/Util/StrTests.cs:50 | "path.?+/hello/world" matches |
| Str.IsAnchoredAtStart | CatLib.VS/CatLib.Tests/Support/Util/StrTests.cs:51 | "hellopath.?+/hello/world" does not match |
| Str.IsMatchesLongRun | CatLib.VS/CatLib.Tests/Support/Util/StrTests.cs:52 | "world" followed by any number of further 'd's matches; the test's string is the case of eight |
| Str.IsAnchoredAtEnd | CatLib.VS/CatLib.Tests/Support/Util/StrTests.cs:53 | "path.?+/hello/worldddddddddppppp" does not match |
| SizeMonitor.SizeMonitorHandler.constructor | CatLib.VS/CatLib/Debugger/WebMonitor/Handler/SizeMonitorHandler.cs:61-73 | the title is stored; category and unit are unset; the table is the six-row table from 1024 to long.MaxValue |
| SizeMonitor.SizeMonitorHandler.Handler | CatLib.VS/CatLib/Debugger/WebMonitor/Handler/SizeMonitorHandler.cs:79-92 | the unit is the label of the first row whose key exceeds the reading, and the value is the reading over that row's divisor; when no row does, unit and value stay; title and category are constant |
| SizeMonitor.FirstAbove | CatLib.VS/CatLib/Debugger/WebMonitor/Handler/SizeMonitorHandler.cs:82-91 | the row found has a key above the reading and every earlier key is not; with no row found, no key is above the reading |
| SizeMonitor.FirstAboveAt | CatLib.VS/CatLib/Debugger/WebMonitor/Handler/SizeMonitorHandler.cs:82-91 | a row above the reading, with no earlier row above it, is the row found |
| SizeMonitor.UnitTableAscending | CatLib.VS/CatLib/Debugger/WebMonitor/Handler/SizeMonitorHandler.cs:64-72 | the table keys ascend strictly |
| SizeMonitor.FirstAboveIsSmallest | CatLib.VS/CatLib/Debugger/WebMonitor/Handler/SizeMonitorHandler.cs:82-91 | in an ascending table the row found has the smallest key above the reading |
| SizeMonitor.BelowOneKilobyte | CatLib.VS/CatLib/Debugger/WebMonitor/Handler/SizeMonitorHandler.cs:66 | every reading below 1024, negative ones included, is shown in bytes |
| SizeMonitor.MaxValueMatchesNothing | CatLib.VS/CatLib/Debugger/WebMonitor/Handler/SizeMonitorHandler.cs:82-91 | long.MaxValue is below no key, so the handler leaves unit and value |
| SizeMonitor.BucketBounds | CatLib.VS/CatLib/Debugger/WebMonitor/Handler/SizeMonitorHandler.cs:84-89 | for kb to tb the divisor is the row key over 1024, which is the previous key, and divisor ≤ reading < 1024 · divisor |
| SizeMonitor.PetabyteWrittenDivisor | CatLib.VS/CatLib/Debugger/WebMonitor/Handler/SizeMonitorHandler.cs:88 | the written divisor is 1024^i for kb to tb, but 8 · 1024^5 for pb; a reading of exactly 1024^5 bytes falls in the pb row |
| SizeMonitor.PetabyteBucket | CatLib.VS/CatLib/Debugger/WebMonitor/Handler/SizeMonitorHandler.cs:88 | with the divisor 1024^5, every pb reading is at least 1 pb |
| Configuration.Resolve | CatLib.Unity/Assets/CatLib.Test/Editor/Config/ConfigProviderTests.cs:54-65 | the resolved name is never empty; a non-empty name is kept; otherwise it is the default name, or "default" when that is empty |
| Configuration.DefaultResolution | CatLib.Unity/Assets/CatLib.Test/Editor/Config/ConfigProviderTests.cs:62-65 | with an empty default name, no name and "default" resolve alike; with another non-empty default they differ; an empty name means no name |
| Configuration.Notices | CatLib.Unity/Assets/CatLib.Test/Editor/Config/ConfigProviderTests.cs:80-89 | setting a key calls at most one callback per watcher, each with the new value |
| Configuration.NoticeIff | CatLib.Unity/Assets/CatLib.Test/Editor/Config/ConfigProviderTests.cs:80-89 | callback id receives v if and only if v is the new value and id watches the key that was set |
| Configuration.UnwatchedSilent | CatLib.Unity/Assets/CatLib.Test/Editor/Config/ConfigProviderTests.cs:86-89 | setting a key nobody watches calls no callback |
| Configuration.NoticesAppend | CatLib.Unity/Assets/CatLib.Test/Editor/Config/ConfigProviderTests.cs:80-89 | watchers registered later are called after those registered earlier |
| Configuration.Config.constructor | CatLib.Unity/Assets/CatLib.Test/Editor/Config/ConfigProviderTests.cs:55-58 | a new configuration object has its factory's origin, no values, no watchers and no calls |
| Configuration.Config.Watch | CatLib.Unity/Assets/CatLib.Test/Editor/Config/ConfigProviderTests.cs:81-84 | the watcher is appended and nothing is called |
| Configuration.Config.Set | CatLib.Unity/Assets/CatLib.Test/Editor/Config/ConfigProviderTests.cs:86-89 | the key now reads back as the value and every other key reads as before; exactly the watchers of that key are called with it, in registration order |
| Configuration.ConfigManager.constructor | CatLib.Unity/Assets/CatLib.Test/Editor/Config/ConfigProviderTests.cs:36-47 | a new manager has an empty default name, no factories and no cached objects |
| Configuration.ConfigManager.DefaultName | CatLib.Unity/Assets/CatLib.Test/Editor/Config/ConfigProviderTests.cs:64-65 | the default name when set, "default" when it is empty |
| Configuration.ConfigManager.SetDefault | CatLib.Unity/Assets/CatLib.Test/Editor/Config/ConfigProviderTests.cs:54 | only the default name changes |
| Configuration.ConfigManager.Extend | CatLib.Unity/Assets/CatLib.Test/Editor/Config/ConfigProviderTests.cs:55-58 | the factory is registered under the resolved name, and this succeeds if and only if that name has no factory yet; otherwise a runtime error changes nothing |
| Configuration.ConfigManager.Get | CatLib.Unity/Assets/CatLib.Test/Editor/Config/ConfigProviderTests.cs:60-65 | a cached object for the resolved name comes back unchanged; without a factory the lookup fails; otherwise a new, empty object is built by that name's factory and cached |
| Configuration.NewManager | CatLib.Unity/Assets/CatLib.Test/Editor/Config/ConfigProviderTests.cs:36-47 | the provider's manager has a factory for "default" and nothing cached |
| Configuration.DefaultNameScenario | CatLib.Unity/Assets/CatLib.Test/Editor/Config/ConfigProviderTests.cs:54-65 | with default "catlib", the default object and the "default" object are distinct and come from different factories; after the default is emptied, the default object is the cached "default" one |
| Configuration.WatchScenario | CatLib.Unity/Assets/CatLib.Test/Editor/Config/ConfigProviderTests.cs:71-89 | the watcher of "watch" is called once, with "123"; setting "nowatch" does not call it; "watch" then reads back as "123" |

## Left out

- Threads: the caller's thread is a boolean parameter of `MainThread`. `IsMainThread` and cross-thread queueing are not modelled.
- Reflection: `OnFindType`, type lookup by name and `[Priority]` attributes are not modelled. A provider carries its type name and an integer priority.
- `Application.Version` is not modelled. It is a constant string with no behaviour to prove.
- Bootstrap stages are given as the lists of providers they register; the stage classes themselves, and the host's stage list in `Bootstrap.cs`, are not modelled.
- Application.Application.Register: the register step is a logged event. The only effect modelled is that the events provider installs the dispatcher; what other providers bind is left out.
- Application.Application.Init: eager services and the metadata priority override of an init step are not modelled. The init step's priority is the provider's priority.
- Events.Dispatcher.On: handles cannot unregister a listener (`Off` is not modelled), and wildcard event names are left out.
- Events.Dispatcher.Trigger: a full trigger with exactly one listener answers a one-element array, not the answer itself. No test shows this case, nor a halting trigger with several listeners.
- Events.Dispatcher.Trigger: a listener's answer is a pure function of the payload. Listeners that register or trigger events themselves are not modelled.
- Driver.Container.Make: constructor arguments, dependency resolution and resolving callbacks are not modelled. Only singletons are attached to the driver, because transient objects are never released.
- Driver.Container.Instance: installing an instance runs no resolving callback.
- Driver.MonoDriver.StartCoroutine: a coroutine runs all its steps at once. Stepping by the game engine over several frames, and `StopCoroutine`, are not modelled.
- Release callbacks and hooks are recorded as identifiers in order. Exceptions raised inside them are not modelled.
- Str.Split: the chunk size must be positive. The behaviour for a size below 1 is not shown and is not modelled.
- Str.SubstringCount: the needle must be non-empty. Only ordinal comparison is modelled, because the culture-sensitive `StringComparison` overload depends on .NET culture tables.
- Str.RegexMatch models only the regular expressions that `AsteriskWildcard` produces, not .NET regular expressions in general.
- Str.RegexMatch: `.` matches every character, and the match must end at the end of the string. In .NET, `.` does not match '\n', and `$` also matches before a final '\n'. Strings with newlines can therefore match differently.
- Str.Is: inherits those newline differences from Str.RegexMatch.
- Str.Split: a Dafny `char` is a Unicode scalar value, while a .NET string is a sequence of UTF-16 code units. Lengths and chunk boundaries differ for characters outside the Basic Multilingual Plane.
- Str.Reverse: for the same reason, a character outside the Basic Multilingual Plane is reversed as one character here, whereas .NET reverses its two UTF-16 code units.
- Str.SubstringCount: start and length count Unicode scalar values here and UTF-16 code units in .NET.
- `Str.Shuffle` is randomised and is not modelled.
- SizeMonitor.SizeMonitorHandler.Handler: the value is kept as the exact pair (reading, divisor). The double quotient and its `"#0.00"` formatting are not modelled. The divisor is the intended 1024^i (see Findings).
- Other monitors are not modelled. The screen, memory and FPS monitors are thin calls into the game engine, and the HTTP monitor test queries a local web server.
- Configuration.Config: value converters and config locators are not modelled. Values are strings, and a factory is an origin number recording which factory built an object.
- Configuration.ConfigManager.Get: a lookup whose name has no factory fails with a runtime error. The exact error the framework raises there is not shown.
- Configuration.ConfigManager.Extend: a second factory for a name fails with a runtime error. This case is not shown and is modelled as refused.
- `ILogEntry.cs`, `TranslationDemo.cs` and `Assemblys.cs` have no behaviour in this core and are not modelled.

## Findings

| source | as written | input that shows it | evidently intended | confidence | as-written member | corrected member |
|---|---|---|---|---|---|---|
| CatLib.VS/CatLib/Debugger/WebMonitor/Handler/SizeMonitorHandler.cs:88 | the pb row divides by long.MaxValue / 1024.0, and long.MaxValue rounds to the nearest double, 2^63, so the divisor is 2^53 = 8 · 1024^5 | 1125899906842624 bytes (exactly 1 pb) has value 0.125 | divide the pb row by 1024^5, so every pb reading shows as at least 1 | not executed | SizeMonitor.PetabyteWrittenDivisor | SizeMonitor.PetabyteBucket |
