# Revel verification

A Dafny model of the stateful and text-handling core of the Revel web framework, with proofs about it.

- **Parameter binder** (`Common`, `Text`, `Decimal`, `BinderTypes`, `UnbindSpec`, `UnbindImpl`, `UnbindKeys`, `BindSpec`, `BindTexts`,
  `BindImpl`, `BindOrder`, `BindPlaces`, `BindPlans`, `BindDecided`, `BindRoundTrip`, `BindKeys`, `Binder`). `Unbind`
  flattens a typed value into `name`, `name.Field`, `name[3]` and `name[key]` entries; `Bind` rebuilds a value by
  recursion on its type and by prefix search over an unordered map. Go may visit that map in any order, so `Bind` is
  specified by a relation, `Outcome`. `BindPlans` runs `Bind` with the visiting order of every call given, and shows
  that `Outcome` holds of exactly the values that some orders give. `Panics` says exactly when the call panics.
  `BindTexts` describes, by the texts alone, what numbers, booleans and names the binder reads.
- **Refresh coalescing** (`Watcher`). `notifyInProcess`, run by any number of goroutines, as a step system: the
  mutex, the timer and the channel of capacity 10 are explicit, and the steps interleave freely.
- **Cookies** (`CookieText`, `Escape`, `FlashAndErrors`, `Session`). The key/value text and the regular expression
  that reads it, query escaping, the flash and validation cookies, and the session: string map, text, escaping,
  signature, cookie, and back with the expiry check.
- **Object pool** (`Pool`). The doubly linked list of `SimpleLockStack` as a heap structure that refines a sequence.
- **Response compression** (`BufferedHeader`, `Compress`). The header that holds calls back until it is released,
  compared with making the calls directly, and the writer that chooses between the compressor and the plain stream.
- **Reverse routing** (`Reverse`). Arguments into the path and the query, and the URL read back.
- **Filters** (`FilterEdits`, `Slices`, `FilterConfig`, `Filters`, `FilterLaws`). The edits of filter chains per controller and
  action: what they promise, with chains as values, and what they do to slices that share backing arrays. And the
  filters that run an action between deferred BEFORE, AFTER, PANIC and FINALLY stages; `FilterLaws` says by hooks and
  events alone who is called, which stages run, and in which order.
- **Embedded controllers** (`ControllerPaths`, `Slices`, `FindControllers`). The breadth-first search for
  `*Controller` fields: first with index paths as values, then with the slices that `append` extends.

Objects that the Go code changes in place are classes here (`UnbindImpl.Output`, `FlashAndErrors.Flash`,
`Session.Session`, `Pool.SimpleLockStack`, `BufferedHeader.BufferedServerHeader`,
`Compress.CompressResponseWriter`, `FilterConfig.Configurator`, `Filters.Controller`). Each method is proved
equal to a step function on the object's abstract value, and the lemmas are about runs of those functions.
A loop over a Go map picks its keys in an arbitrary order, so its results hold for every order. A Go panic is a
`None`, a `false`, a `Panic` or a `Panicked` result.

Run `dafny verify dfyconfig.toml`.

## Properties that do not hold as one might expect

Each of these is stated exactly, with the condition under which it does hold.

- A value that is unbound and bound again need not be the same. Trailing silent slice elements, silent map entries
  and unexported fields are lost, and so is what a pointer to a string, bool, slice or pointer points to, because
  its binder returns a value that cannot be addressed. `Binder.UnbindThenBind` says exactly which values survive;
  `BindRoundTrip.ComesBack` says what the others become.
- An action does not always run with its controller's edits and its own: `getChain` hands out a controller's slice
  uncopied, so the first edit of an action can write into the array that the controller's chain still uses. With the
  filters router, configuring, S and invoker, adding F for a controller and then removing S for one of its actions
  leaves the controller with F and the invoker twice (`FilterConfig.ActionRemoves`); the example of the type's own
  documentation, a filter added for each, takes the controller's invoker away (`FilterConfig.ActionAdds`).
  `FilterConfig.GuardedRun`: every chain is as promised when no action is edited for the first time after its
  controller was edited. `FilterConfig.OneMoreEdit`: after such edits, the next one keeps the promise exactly when it
  does not borrow the controller's array and write a different filter over a part that the controller shows.
  `FilterConfig.AnyRun`: in any sequence of edits, the chains are the promised ones after each single edit exactly
  when none writes a different filter at a place that another override shows.
- `Bind` can depend on the order in which the parameters are visited (`BindOrder.OrderCanShow`).
  `BindDecided.DecidedExactly`: all orders give one value exactly when, at every depth, each parameter that competes
  for a place is bound to the value at that place; the condition is a recursion on the parameters and the type alone.
  `BindPlaces.DecidedIff` says the same place by place for one call. `BindOrder.OrderIndependent` gives a condition on the parameter names alone; it is sufficient and not
  necessary, because competing parameters may hold equal values.
- A waiter of the watcher can return the result of another round than its own (`Watcher.StaleResult`).
  `Watcher.StaleIff`: between two rounds this is possible for a call about to start exactly when a message is left in
  the channel and another call is about to start too. `Watcher.OwnRound`: as long as each round starts with an empty
  channel, every call returns what the refresh of its own round reported.
- The buffered header shows a value of the original header again after it has been deleted
  (`BufferedHeader.BufferingIsInvisible` says when the difference can be seen).
- The search for embedded controllers loses one when a struct embeds `*Controller` twice, the second time under
  another name for the type, at a depth whose index array has room: both indexes are written to the same place, and
  the last one is returned twice (`FindControllers.SecondControllerTwice`). `FindControllers.RightIff`: the result is
  right exactly when there is no such struct. `FindControllers.OneEachIsRight`: it is right, however `append` grows,
  for every type whose structs embed `*Controller` at most once.
- A second `WriteHeader` takes back the compression that the header has already announced
  (`Compress.SecondWriteHeader`); `Compress.OneSinkIff` is the exact condition. It also releases the headers again,
  which sends every cookie again that was held back before the first (`BufferedHeader.ReleaseTwice`).
- A slash or a question mark in a path argument moves the boundaries of the URL
  (`Reverse.UrlGivesArguments`, `Reverse.ArgumentsComeBack`).
- The comment on `Sign` (libs.go:18) promises base64; the code writes hexadecimal, and the model follows the code.

## Model

| member | source | states |
|---|---|---|
| Decimal.ParseIntOfFormat | binder.go:81-98 | IntBinder reads back every 64-bit number that it printed. |
| Decimal.ParseUintOfFormat | binder.go:100-117 | UintBinder reads back every 64-bit unsigned number that it printed. |
| Decimal.ParseIntIff | binder.go:86-90 | A text is read as a number exactly when it is a non-empty digit text after at most one sign whose number fits in 64 bits; one out of range reports the nearer bound, and any other is an error. |
| Decimal.ParseUintIff | binder.go:105-109 | A text is read exactly when it is a non-empty digit text whose value fits in 64 bits; leading digits that are too large are a range error whatever follows. |
| Decimal.AtoiIff | binder.go:228 | With its error dropped, Atoi leaves the number, the nearer bound, or 0 for every other text. |
| Text.NextKey | binder.go:288-294 | The segment is a prefix without separator, and is cut off only by a dot or an opening bracket. |
| Text.TrimSpaceIff | libs.go:79 | Trimming takes off exactly the white space around a text. |
| BinderTypes.ScalarRoundTrip | binder.go:81-156 | For every sized int, uint, string and bool, binding the printed text gives the value back; only numbers come back addressable. |
| BindTexts.PrimTexts | binder.go:81-156 | What every scalar binder makes of every text: the number cut to the width, or zero for a text that is none; the text itself; true or false. It is addressable exactly when it is a number. |
| BindTexts.AtobIff | libs.go:78-86 | A text is false exactly when it is one of six words in any case with any white space around it. |
| BindTexts.IndexRead | binder.go:220-229 | The element of name[text] has the index that Atoi leaves of the text: the number, its bound, or 0. |
| BindTexts.NoClosingBracket | binder.go:220-227 | Without a closing bracket an element is un-indexed. |
| BindTexts.TouchesIff | binder.go:288-294 | A parameter belongs to a field exactly when name.Field is all of it or is followed by a dot or an opening bracket. |
| BindTexts.MapHitIff | binder.go:450-457 | A parameter names a map entry exactly when its brackets hold no separator and nothing, a dot or an opening bracket follows them. |
| UnbindImpl.Unbind | binder.go:490-498 | Succeeds exactly when no nil pointer is met; the output is then the old one overwritten with the value's entries and nothing else. |
| UnbindImpl.UnbindSlice | binder.go:296-301 | The loop over elements stores exactly the entries of all elements, whatever was stored before. |
| UnbindImpl.UnbindStruct | binder.go:345-357 | Stores the entries of exactly the exported fields. |
| UnbindImpl.UnbindMap | binder.go:464-470 | Stores the entries of every map entry, in whatever order the keys are visited. |
| UnbindSpec.WritesAreUnder | binder.go:296-301 | Every key stored for a name is the name itself or continues it with a separator. |
| UnbindKeys.StepsApart | binder.go:296-357 | Names below two different fields, indices or map keys (the latter without dot or opening bracket) are disjoint, however deep they are. |
| UnbindKeys.LeafNamesInjective | binder.go:296-357 | Two different scalar leaves of a value with clean map keys (no dot, no opening bracket) never get the same key. |
| UnbindKeys.WritesFunctional | binder.go:296-357 | For a value with clean map keys no output key is stored with two different texts. |
| UnbindKeys.EntriesMatchLeaves | binder.go:490-498 | For a value with clean map keys the number of entries is the number of scalar leaves. |
| BindImpl.Bind | binder.go:475-480 | For every parameter map, name and type the call ends; it panics exactly when Panics says so and otherwise returns an Outcome. A scalar is what its first text reads as, a pointer to one is nil unless that text is a number, and a parameter with a map's own name panics. |
| BindImpl.BindSlice | binder.go:210-284 | The loop over the parameters with maxIndex and sliceValues, and the placing of its results, give a slice that SliceOutcome allows. |
| BindImpl.Place | binder.go:274-283 | Every indexed store is in range, the last one at an index stays, unset positions are zero, and un-indexed values follow in order. |
| BindImpl.BindStruct | binder.go:303-343 | Each exported field that some parameter names is bound once, under its own name; every other field stays zero. |
| BindImpl.BindMap | binder.go:427-462 | Every matching parameter has its key in the result, and each entry is bound from a parameter with that key; a parameter equal to the name panics. |
| BindImpl.BindValue | binder.go:482-484 | One text is bound as the only parameter, under the empty name. |
| BindSpec.Children | binder.go:242-245 | Every nested call has a longer name that is still the start of some parameter, or goes through one pointer of a pointer type: why Bind ends on recursive structs. |
| BindOrder.OrderIndependent | binder.go:210-343 | With at most one un-indexed key for each slice and no two bracket texts for one index or map key, all visiting orders give one value. |
| BindPlaces.EveryListingIsPossible | binder.go:206-281 | In every outcome of a slice the un-indexed parameters can be taken in any other order, the indexed part unchanged. |
| BindOrder.OrderCanShow | binder.go:206-281 | Two un-indexed keys with different texts: two visiting orders give two different slices. |
| BindPlaces.DecidedIff | binder.go:210-343 | Where Bind returns a value, all visiting orders give the same one if and only if the parameters competing for each index, map key, field, pointee and turn agree. |
| BindPlans.OutcomeIff | binder.go:210-480 | With the visiting order of every call given explicitly: the values that Bind, where it does not panic, returns for some orders are exactly the outcomes. |
| BindDecided.DecidedExactly | binder.go:210-480 | Where Bind does not panic, it returns a value and no other, in all orders, if and only if the parameters decide on it at every depth: each indexed key, field, map key and un-indexed text is bound to what stands at its place. |
| BindDecided.OneValueIff | binder.go:210-480 | All orders agree if and only if there is a value that the parameters decide on. |
| BindPlans.SomeOutcome | binder.go:210-480 | Every call has an outcome, whatever the parameters. |
| BindPlaces.SameIndexShows | binder.go:242-277 | Two keys with one index and different bracket texts, bound to different values, make two outcomes. |
| BindPlaces.SameKeyShows | binder.go:443-460 | Two bracket texts that parse to one map key, bound to different values, make two outcomes. |
| BindPlaces.TurnsShow | binder.go:249-281 | Two un-indexed keys whose values do not swap make two outcomes. |
| BindPlaces.AnyOrder | binder.go:267-281 | Lists that swap pairwise give the same elements laid end to end in every order. |
| BindRoundTrip.ComesBack | binder.go:210-498 | On a map holding the entries of a value with clean map keys, and any other parameters outside the name, Bind returns the value's normal form in every order. |
| BindRoundTrip.NeverPanics | binder.go:443-460 | Bind does not panic on the entries of a value with clean map keys. |
| BindRoundTrip.RoundTripsIffNorm | binder.go:210-343 | The structural description of the values that survive is equivalent to being unchanged by normalisation. |
| BindRoundTrip.RoundTripExactly | binder.go:210-498 | What comes back equals the original exactly when RoundTrips holds of it. |
| BindKeys.OutcomeKeysClean | binder.go:450-459 | Whatever the parameters, a bound value has the type asked for and no map key with a dot or an opening bracket, as long as an int can count its slices. |
| Binder.UnbindThenBind | binder.go:475-498 | For every typed value: Unbind panics exactly on nil pointers, stores one entry for each leaf, and Bind gives the value back exactly when Recovered holds. |
| Binder.BindTwice | binder.go:475-480 | Two runs of Bind panic together, and agree when the parameters are unambiguous or agree place by place. |
| Binder.SliceByPosition | binder.go:210-284 | With plain indices, position i holds what name[i] is bound to or zero, the un-indexed values follow in order, and the indexed part has at most max_index+1 elements. |
| Binder.ElementByText | binder.go:220-245 | Whatever stands in the brackets, name[text] is bound at the index that Atoi leaves of it, 0 for a text that is no number. |
| Binder.StructByName | binder.go:303-343 | Each exported field that a parameter mentions is bound at name.Field; every other field is zero. |
| Binder.MapByText | binder.go:443-460 | The keys are exactly those that the parameters name, and each entry is bound at name[text] for one text of its key. |
| Binder.FieldPanics | binder.go:303-343 | A panic in binding a field is a panic of the struct. |
| Binder.EntryPanics | binder.go:443-460 | A panic in binding an entry is a panic of the map. |
| Binder.ElementPanics | binder.go:237-240 | A panic in binding an element is a panic of the slice. |
| Binder.LoosePanics | binder.go:246-251 | So is one in binding an un-indexed text. |
| Binder.NoMapNoPanic | binder.go:475-480 | Without map types no parameters make Bind panic. |
| Watcher.StepInv | watcher.go:217-264 | Every step of every interleaving keeps mutual exclusion, one leader for each timer, the channel bound and the message count. |
| Watcher.Conservation | watcher.go:237-253 | In every reachable state the waiters equal the messages in the channel plus the registrations not yet sent to. |
| Watcher.Progress | watcher.go:217-264 | A state with an unfinished call always has a next step, also while the leader is blocked on the full channel with the mutex held. |
| Watcher.StepDecreases | watcher.go:217-264 | Every step decreases a measure of the state. |
| Watcher.RunLength | watcher.go:217-264 | Any number n of calls take at most 7n steps together. |
| Watcher.EveryCallEnds | watcher.go:217-264 | When no step is left all calls have returned or panicked, and no message, registration, timer or lock is left. |
| Watcher.ResultsComeFromRefreshes | watcher.go:238-255 | Every message and every result returned is what the refresh of the round it is marked with reported. |
| Watcher.OwnRound | watcher.go:217-264 | In every run whose rounds each start with an empty channel, every call returns what its own round's refresh reported. |
| Watcher.StaleIff | watcher.go:222-255 | From every reachable state between rounds: within the next round a call can return another round's result if and only if a message is left in the channel and two calls are about to start. |
| Watcher.StaleResult | watcher.go:230-249 | Such a state is reached by four calls. |
| CookieText.ParseIsFindAll | util.go:29 | The deterministic scan returns exactly the successive leftmost matches of the pattern. |
| CookieText.FindAllUnique | util.go:29 | There is only one such list of matches. |
| CookieText.PrintedListComesBack | util.go:91-98 | Parsing a printed list gives it back exactly when no key holds a colon and no value a NUL. |
| CookieText.ParseIsStable | util.go:91-98 | For every text, parsing, printing and parsing again gives what parsing gave first. |
| CookieText.ListingAsMap | flash.go:54-56 | A map printed in any order is stored back as the same map. |
| CookieText.StoreAll | session_adapter_cookie.go:87-90 | The callback that stores each pair leaves the last value for each key. |
| CookieText.AsMapIff | session_adapter_cookie.go:87-90 | The map holds a value for a key exactly when the last pair with that key has it. |
| Escape.EscapeRoundTrip | util.go:92 | Unescaping an escaped byte string gives it back, for every byte string. |
| Escape.HexHasNoHyphen | libs.go:28 | A signature holds no hyphen. |
| Escape.HexInjective | libs.go:28 | Different hashes have different signatures. |
| Escape.ParseKeyValueCookie | util.go:91-98 | The callback is called with the pairs of the unescaped text, in order; a text that does not unescape has none. |
| Escape.CookieRoundTrip | util.go:91-98 | An escaped, printed list of pairs that fit is read back unchanged. |
| FlashAndErrors.Flash.constructor | flash.go:68-79 | Restores the map that the cookie's pairs make, with nothing to send; no cookie, no data. |
| FlashAndErrors.Flash.CookieValue | flash.go:52-59 | The cookie reads back as the map exactly when no key holds a colon and no value a NUL, whatever the order of the map. |
| FlashAndErrors.NextRequest | flash.go:46-79 | What one request puts in its flash, when it fits the text form, is what the next one finds, once. |
| FlashAndErrors.ErrorsText | validation.go:277-285 | Prints the errors that have a message, in order. |
| FlashAndErrors.RestoreErrors | validation.go:315-330 | One error for each pair of the cookie, in order. |
| FlashAndErrors.ErrorsRoundTrip | validation.go:277-330 | The errors with a message come back in their order, and no others, exactly when none of those has a colon in its key or a NUL in its message. |
| FlashAndErrors.StoredAreKept | validation.go:280-284 | The printed pairs are the kept errors, one for one. |
| FlashAndErrors.KeptAt | validation.go:280-284 | An error is kept at its place among the others exactly when it has a message. |
| Session.Session.GetSessionJsonMap | session/session.go:205-217 | Returns the stored object map, and resets a missing or corrupted one to the empty map. |
| Session.Session.Set | session/session.go:187-195 | Stores the value and changes nothing else; nil deletes it and any JSON text kept for it. |
| Session.Session.Del | session/session.go:198-202 | Removes the key from the session and from its object map. |
| Session.Session.Serialize | session/session.go:222-253 | Strings as they are and the JSON texts of the rest under the object key, whatever order the entries are visited in. |
| Session.Session.Load | session/session.go:256-269 | Every loaded key holds its text as a string, and the object key its map, in any order of visiting; an object text that does not unmarshal, and every other key, changes nothing. |
| Session.SessionCookieEngine.GetCookie | session_adapter_cookie.go:104-143 | Stamps the session, panics exactly on a colon or NUL in a key or a NUL in a value, and signs a printed listing of the serialized map. |
| Session.SessionCookieEngine.DecodeCookie | session_adapter_cookie.go:70-101 | Unless the cookie is the hexadecimal keyed hash of some data (nothing without a key), a hyphen and that data, the session stays as it was. If it is, the data's pairs are loaded, and all is emptied when the timestamp is then missing or past. |
| Session.LoadSerialized | session/session.go:222-269 | Loading a serialized session into an empty one restores the strings and the JSON texts, and nothing more. |
| Session.SerializeFixpoint | session/session.go:222-269 | Serializing what was loaded gives the same string map again. |
| Session.SignedPayload | session_adapter_cookie.go:74-84 | The first hyphen of a signed cookie ends its signature, which verifies, whatever the key and the text. |
| Session.AcceptedIff | session_adapter_cookie.go:74-84 | A cookie value is accepted with some data exactly when it is that data, not empty, behind its signature and a hyphen. |
| Session.CurrentIff | session/session.go:82-91 | A loaded session is kept exactly when its timestamp says "session" or what Atoi leaves of it is not before now. |
| Session.StampReadsBack | session/session.go:82-91 | The written timestamp is past for the reader exactly when the expiry time was set and is before the reader's clock, in seconds. |
| Session.SessionRoundTrip | session_adapter_cookie.go:70-143 | A cookie decoded into an empty session restores every string and JSON text while it is not past, and nothing once it is. |
| Session.OnlyStringsPanic | session_adapter_cookie.go:116-124 | Whether GetCookie panics depends on the string entries alone. |
| Session.NextRequest | session_adapter_cookie.go:70-143 | The two calls, one request apart: the cookie is made exactly when no string has a colon or NUL in its key or a NUL in its value, and the next request finds the strings and JSON texts of this one until the time to live is over, and then nothing. |
| Session.RestoredCarries | session/session.go:222-269 | A restored session holds each string, the JSON text of every other value, the texts kept before for keys without such a value, and nothing else. |
| Session.DeletedIsGone | session/session.go:198-202 | The next request does not see a deleted value, nor a JSON text kept for it, and sees everything else as it would have. |
| Pool.SimpleLockStack.NewStackLock | utils/simplestack.go:28-47 | A well-linked pool that stores startsize created objects, or none, with the counters to match. |
| Pool.SimpleLockStack.Pop | utils/simplestack.go:49-67 | Takes the value last stored, or creates one when nothing is stored; the chain of nodes stays as it is, and Current is node max(len,1)-1. |
| Pool.SimpleLockStack.Push | utils/simplestack.go:69-93 | Stores the value unless the pool is full, reuses the node above the current one when there is one, and keeps one well-linked chain. |
| Pool.RunIsBalanced | utils/simplestack.go:42-91 | After every run, active plus stored equals the start size plus the objects created on empty, and stored never exceeds max(startsize, maxsize, 1). |
| Pool.PushesAreStored | utils/simplestack.go:75-90 | Pushes within the limit stack up on top of what is stored. |
| Pool.PopsAreReversed | utils/simplestack.go:58-65 | Pops return what is stored from the top down and leave the rest. |
| Pool.LastInFirstOut | utils/simplestack.go:49-93 | Values pushed within the limit are popped in reverse order, and the pool is as before. |
| FindControllers.FindControllers | controller.go:471-521 | Fails exactly when a nil embedded pointer is reached, and ends. Otherwise returns, for each anonymous path to a *Controller, shorter ones first and each level in field order, that path, or the struct's last controller where the index array has room. So it is right if and only if no struct with room embeds *Controller twice. |
| FindControllers.LookAtFields | controller.go:499-518 | One node's anonymous fields go to the result or to the queue, in field order; a queued index has an array of its own, and all controllers of a node whose array has room show the last of them. |
| FindControllers.RightIff | controller.go:512-517 | What is returned is every path once and in order, if and only if no struct whose index has room embeds *Controller twice. |
| FindControllers.OneEachIsRight | controller.go:471-521 | When each struct embeds *Controller at most once, the search is right however append grows. |
| FindControllers.SecondControllerTwice | controller.go:512-517 | A struct three levels down that embeds it twice: with Go's growth of small slices the second path is returned twice and the first is lost. |
| ControllerPaths.StepSound | controller.go:480-519 | Each round keeps the queue and the result made of real paths, in breadth-first order. |
| ControllerPaths.StepComplete | controller.go:480-519 | Each round passes over no path: what was ahead is found or still ahead. |
| ControllerPaths.QueueShrinks | controller.go:480-519 | Each round makes the types still in the queue smaller, which is why the search ends. |
| FilterEdits.NewFilterAt | filterconfig.go:104-159 | A new filter stands just before the last one, or directly before or after the first occurrence of its target. |
| FilterEdits.RemoveUndoes | filterconfig.go:104-159 | Remove takes back an Add or Insert of a filter that was not in the chain. |
| FilterEdits.EditIs | filterconfig.go:104-159 | Each edit by the first occurrence of its target: what stands before and after it stays, and without it nothing changes. |
| FilterEdits.DefaultChainIff | filterconfig.go:164-180 | The default chain is exactly what follows the first FilterConfiguringFilter; without one getChain panics. |
| FilterEdits.KeyInjective | filterconfig.go:60-65 | No two controllers or actions share a key. |
| FilterEdits.PrefixIsController | filterconfig.go:189 | The prefix test picks exactly the actions of the edited controller. |
| FilterConfig.EditSliceView | filterconfig.go:113-159 | Whatever the array, the edited slice shows the edited chain; only the slice's own array is written, and a new one is made exactly when a filter is added to a full array. |
| FilterConfig.OverwritesIff | filterconfig.go:113-159 | The slice that was edited shows another chain afterwards exactly when the edit stays in the array and writes a different filter over one of its places. |
| FilterConfig.Configurator.AddFilter | filterconfig.go:113-115 | The new filter is second to last and the last one stays last; an empty chain panics. |
| FilterConfig.Configurator.RmFilter | filterconfig.go:125-132 | The first occurrence is gone from the slice returned, and the array is overwritten in place. |
| FilterConfig.Configurator.InsertFilter | filterconfig.go:149-159 | The filter stands beside the first occurrence in the slice returned; the array is overwritten if it has room. |
| FilterConfig.Configurator.GetChain | filterconfig.go:164-180 | The action's slice, else its controller's slice, uncopied, else a copy of the filters after FilterConfiguringFilter. |
| FilterConfig.Configurator.Apply | filterconfig.go:184-197 | The edit reaches the actions' overrides in any order and then the target's chain, arrays included. After safe edits every chain is as promised if and only if the edit overwrites no borrowed array. |
| FilterConfig.Configurator.EffectiveChainOf | filterconfig.go:106-223 | When no action was edited for the first time after its controller, a target runs the default filters with its controller's and its own edits applied in order. |
| FilterConfig.SafeEdit | filterconfig.go:184-197 | An edit that does not write into a borrowed array does to the chains what was promised, and leaves all overrides in arrays of their own. |
| FilterConfig.GuardedRun | filterconfig.go:106-223 | Under that guard, after every sequence of edits, every controller and action has the default chain with exactly the edits that concern it, in order. |
| FilterConfig.OneMoreEdit | filterconfig.go:164-197 | After safe edits, one more keeps all chains as promised if and only if it does not overwrite a part of a borrowed array that the controller shows; arrays stay apart exactly when it is safe. |
| FilterConfig.SingleIff | filterconfig.go:184-197 | From any state, shared arrays included: one edit of one override changes exactly that override's chain if and only if it writes no different filter at a place that another override shows. |
| FilterConfig.AnyRun | filterconfig.go:106-223 | For every sequence of edits: the chains are as promised after each single edit if and only if none spills into another override; then every target has the default chain with exactly the edits that concern it. |
| FilterConfig.ActionRemoves | filterconfig.go:125-132 | Controller Add followed by action Remove takes the filter from the controller too and doubles its last one. |
| FilterConfig.ActionAdds | filterconfig.go:46-52 | The documented combination of a controller's Add and an action's Add replaces the controller's last filter when append left room. |
| BufferedHeader.BufferedServerHeader.Set | compress.go:301-307 | Holds the value back until Release, and passes it on afterwards. |
| BufferedHeader.BufferedServerHeader.Del | compress.go:323-329 | Drops what is held back, or deletes from the original once released. |
| BufferedHeader.BufferedServerHeader.SetCookie | compress.go:287-293 | Holds the cookie back in order, or passes it on. |
| BufferedHeader.BufferedServerHeader.Get | compress.go:332-343 | Answers with what is held back, else with the original's value. |
| BufferedHeader.BufferedServerHeader.Release | compress.go:377-390 | Pushes every held value, in any order of the keys, then the cookies in order, then a positive status. |
| BufferedHeader.AgreesIff | compress.go:287-390 | Before and right after Release, answers and cookies are those of direct calls exactly when no deleted value of the original shows through. |
| BufferedHeader.BufferingIsInvisible | compress.go:287-390 | A run with one Release agrees with direct calls at every point exactly when no value of the original is ever deleted before the Release and not set again. |
| BufferedHeader.FreshKeysAgree | compress.go:287-390 | On an original without the keys that the run deletes, the final values and cookie order are those of direct calls. |
| BufferedHeader.LastStatusIsSent | compress.go:368-389 | Of the status codes set before Release only the last is sent, if positive; later ones all are. |
| BufferedHeader.ReleaseTwice | compress.go:377-390 | After a second release the cookies are those of direct calls if and only if none was held at the first; otherwise all that were held are sent twice. |
| Compress.CompressResponseWriter.PrepareHeaders | compress.go:97-123 | Announces the encoding and drops the length exactly for a listed content type without an encoding, otherwise gives the compressor up; then releases the headers. |
| Compress.CompressResponseWriter.WriteHeader | compress.go:126-133 | Settles and releases the headers and then sends the status, behind a positive one that was held; nothing after Close. |
| Compress.CompressResponseWriter.Write | compress.go:161-186 | Refuses after Close or when the parent is gone; otherwise settles the headers once and passes the bytes to one sink. The compressor is never nil when used. |
| Compress.CompressResponseWriter.Close | compress.go:136-158 | Settles the headers if need be and closes the compressor in use, once. |
| Compress.EveryRun | compress.go:97-186 | In every run the accepted bytes are the compressor's followed by the plain ones, and the compressor is closed at most once, only by Close. |
| Compress.ClosedIsFinal | compress.go:136-186 | After Close no call reaches either sink. |
| Compress.OneSinkIff | compress.go:97-186 | All bytes are in one sink, the compressor exactly when Content-Encoding was added, if and only if no later WriteHeader found the headers no longer compressible. |
| Compress.DisciplinedRun | compress.go:97-186 | With at most one WriteHeader and none after a Write, the accepted bytes are in one sink in order, and the compressor is closed once by Close if it was used. |
| Compress.ReadableResponse | compress.go:97-186 | In such a run, with Content-Encoding left to the writer, the body is compressed exactly when the header sent names the compressor. |
| Compress.SecondWriteHeader | compress.go:97-133 | A second WriteHeader sends the body plain under a header that announces compression, and leaves the compressor open. |
| Compress.SentHeaders | compress.go:97-123 | The released headers are the answers before, plus the encoding; a length set on the original itself is not deleted. |
| Compress.EncodingInRun | compress.go:97-186 | In every run in which the program leaves Content-Encoding alone, it names the compressor exactly when the writer added it, and is otherwise the original's. |
| Compress.StatusesSent | compress.go:126-133 | In every run in which the program leaves the status to the writer, the server's header receives exactly the codes of the WriteHeader calls before the first Close, in order, and nothing before the held headers are released. |
| Compress.CloseDropsLength | compress.go:136-149 | Closing a compressed response takes Content-Length from the header that is sent. |
| Compress.EncodesIff | compress.go:97-115 | A response is compressed exactly when it has no encoding and its first content type is a listed one, with any white space around it and any parameters after a semicolon. |
| Reverse.ReverseUrl | router.go:683-743 | Panics exactly when a path argument has no value left; otherwise each wildcard's value is in its place and the query lists exactly the arguments left over, injected names included. Read again, the URL gives exactly the arguments if and only if no value in its path has a slash or a question mark. |
| Reverse.FillPath | router.go:715-732 | Fixed parameters come before arguments, an argument is used once, and the used ones are removed; the first missing one stops it. |
| Reverse.ArgumentsComeBack | router.go:711-743 | Splitting the URL finds every literal and value in place and the remaining arguments in the query, if and only if no value put into the path holds a slash or a question mark. |
| Reverse.UrlGivesArguments | router.go:711-743 | Literals and fixed parameters are at their places, and the wildcards' names with their parts, together with the query, are exactly the arguments, each given once, if and only if no value in the path has a slash or a question mark. |
| Reverse.PlaceableIff | router.go:715-731 | Every wildcard gets a value exactly when each names a fixed parameter or an argument, and only fixed ones are named twice. |
| Reverse.LastTakesTheRest | router.go:711-743 | A last value with slashes, as for a star, is what is left after the parts before it. |
| Reverse.QueryRoundTrip | router.go:735-743 | Reading an encoded query gives the arguments back. |
| Reverse.SplitJoinIff | router.go:711-740 | Splitting a joined path gives the parts exactly when none of them holds the separator. |
| Filters.Controller.InterceptorFilter | intercept.go:95-112 | Does what Run says for every chain: early return when the controller has a result, PANIC hooks on a panic, FINALLY always. |
| Filters.Controller.InvokeInterceptors | intercept.go:114-133 | BEFORE stops at the first result, the other stages keep the last one, and a panic keeps none; what hooks set themselves stays until then. |
| Filters.Controller.BeforeAfterFilter | before_after_filter.go:9-31 | The same for BeforeAfterFilter, whose stages stop at their first result. |
| Filters.Controller.BeforeAfterInvoke | before_after_filter.go:33-60 | Calls the hooks up to the first that gives a result, and returns that result. |
| Filters.Controller.PanicFilter | panic.go:15-22 | A panic from inside becomes the error page and a normal return. |
| Filters.FinallyInnerFirst | intercept.go:95-112 | On every exit of every chain each entered filter runs its FINALLY stage exactly once, inner before outer. |
| Filters.EveryExit | intercept.go:95-133 | A chain panics exactly when an error was thrown with no PanicFilter around it, with the last such error; the controller's result is the last one set, by a filter or by a hook. |
| Filters.ErrorsAreSeen | before_after_filter.go:15-30 | Every filter that an error passes, with no PanicFilter in between, runs its PANIC stage and not its AFTER stage. |
| FilterLaws.StageIs | intercept.go:114-133 | A stage calls its hooks up to the first panic, and up to the first result in BEFORE stages and all of BeforeAfterFilter's; the result given last becomes the controller's, unless a hook panics. |
| FilterLaws.WhoIsCalled | intercept.go:95-112 | In every run exactly those filters, and the action, are called whose outer filters all let the request through, once each, outside in, each with the controller's result as the hooks left it. |
| FilterLaws.InsideIsCalledIff | intercept.go:105-110 | What is inside a filter is called if and only if every BEFORE hook returned without a result and, for InterceptorFilter, the controller then has none. |
| FilterLaws.WhichStagesRun | before_after_filter.go:9-31 | BEFORE and FINALLY run exactly when the filter is called, AFTER when what is inside was called and no error came out of it, PANIC when BEFORE or AFTER panics or an error comes out. |
| FilterLaws.StagesInOrder | intercept.go:95-112 | In every run and for every filter: the call, BEFORE, all that happens inside, AFTER, PANIC, FINALLY, in this order and at most once each. |
| FilterLaws.PageIsShown | panic.go:15-50 | PanicFilter returns normally, with its page as the controller's result exactly when an error reaches it. |

## Left out

- UnbindImpl.Unbind: what the output map holds after a panic on a nil pointer is not stated.
- FilterConfig.Configurator.Apply: what the overrides are after an edit panicked half-way is not stated.
- How much room `append` leaves in a new array is an arbitrary function of the old capacity and the new length.
- Session.SessionRoundTrip: JSON is an assumed inverse pair on maps of valid UTF-8 text, with control characters escaped; other texts are not covered. Values that are not strings come back as their JSON text, not decoded.
- BufferedHeader.BufferingIsInvisible: header keys are compared as given; `GoHeader.Set` and `Del` write their canonical form, so keys in any other case, and Set-Cookie set as a plain header, are not covered.
- Reverse.ArgumentsComeBack: the URL is read as the text it is; the code does not escape path values, and what a browser or `url.Parse` makes of `%` or `#` in them is not modelled.
- Watcher.Progress: `listener.Refresh` is one step that ends, with a result or a panic.
- Binding of floats, times, files and uploads, of JSON bodies (`params.JSON`), and custom binders. `[]byte` is kept as a type without uploads.
- Embedded struct promotion, interface types, named string, bool, slice and pointer types, and map keys other than the scalar types.
- `int` is taken as 64 bits wide. Configuration lookups (`params.max_index`, the secret key) are parameters.
- `Watcher.Notify`'s choice of listeners, its `lastError` bookkeeping, `NotifyWhenUpdated`, file events and real time: a timer may fire at any moment while it runs.
- The strength of the signature: the keyed hash is an arbitrary function. The clock is a parameter. Of the cookie's attributes only its value and its two expiry fields are modelled.
- `Session.Get`, `GetInto` and nested properties, values of named string types (on which Serialize panics), and the session identifier.
- Formatting arguments of `Flash.Error` and `Success`; `Validation`'s validators, `ErrorMap`, `Keep` and the deletion of its cookie.
- The pool's mutex (each Push and Pop is one step), the `Destroy` call on pushed objects, and object creation with effects: the n-th object created is a function of n.
- `BufferedServerHeader.Add`, `GetKeys` and `GetCookie`; `detectCompressionType` and the compressed bytes themselves; short or failing writes; the compressor's own writes to the original writer.
- The route matcher `Router.Route`, `updateTree`, `splitActionPath` and the choice of the route in `ReverseError`; a nil argument map; `url.Values.Encode`'s order of keys, of which the results do not depend.
- `getInterceptors` and `findTarget`: the hooks of each stage are given in the order in which they are called. `panic(nil)`, and what PanicFilter writes without a result.
- Template and cache back ends, logging, server start-up, reflection mechanics.
