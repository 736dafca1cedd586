# Urban copywriter: verified model of the quota manager, the text layout and the AI service logic

The Urban copywriter is an iOS app with a Python backend. It writes social-media captions and lays them out on images. This project models three parts of it in Dafny and proves properties about each:

- **The iOS entitlement manager** (`SubscriptionManager`). It keeps a daily quota of three free uses in the device's key-value store, together with the day the count was saved. It also keeps a persisted developer-unlimited flag, and a subscription flag recomputed from the store's entitlement list. Caption from image, image generation, background replacement and AI design call `useFreeUse` before sending their request (TextToImageView.swift:111 and 249, DesignView.swift:124, ImageToCaptionView.swift:98); no view calls `canUse`, and the algorithm-analysis and trending-caption screens make no quota call. The manager also loads the products, handles purchases and restores, and listens for transaction updates.
  - It is modelled as a Dafny class, `Subscription.SubscriptionManager`, with the same fields and methods.
  - The key-value store is a `Defaults` value field.
  - "Today" is an integer day number passed in.
  - StoreKit's answers (entitlement lists, purchase outcomes, update streams, product fetches) are parameters.
  - The quota logic is also stated as functions on a `Quota` value. Each method's postcondition ties it to those functions, and the lemmas about runs of calls are proved over them.
- **The backend's text-layout arithmetic** (`image_utils.py`):
  - the overlay font size, clamped to [48, 250];
  - greedy character-level line wrapping against an abstract width function;
  - the font fallback chain, over an abstract "this file opens" predicate.
- **The backend's AI-service control logic** (`ai_service.py`):
  - the retrying call to the image models, over an abstract oracle giving the outcome of the n-th call, with the back-off sleeps recorded as a list of waits;
  - the extraction of the image and the description from a response's parts;
  - the tolerant JSON reading of a reply, over an abstract partial JSON parser;
  - the normalisation and defaulting of a font recommendation, and the font list sent to the model.

The files:
- `wrappers.dfy`: `Option` and `Result`.
- `pystr.dfy`: the Python `str` operations the backend uses: `strip`, `split`, `join`, `find`, `rfind`, `lower`, `in` and slicing.
- `config.dfy`: the font table, the system font fallbacks and the default image model, taken from `config.py`.
- `image_utils.dfy`, `ai_service.dfy` and `subscription_manager.dfy`: the three modelled parts.

Points where the code behaves otherwise than one might expect of an entitlement manager; the model follows the code:
- `isSubscribed` starts `false` and is not persisted (SubscriptionManager.swift:24). Until the first status check finishes the app reports "not subscribed", even for a subscriber.
- A verification failure during a purchase is caught and shown as "購買失敗：" plus the error's description (SubscriptionManager.swift:86, 99-100). The failure is therefore shown to the user, not kept silent.
- The entitlement check tests only that the product type is auto-renewable, not the product identifier (SubscriptionManager.swift:120). Any auto-renewable product grants the subscription.
- The stored count is read back without validation (SubscriptionManager.swift:202). The 0..3 range is therefore an invariant that holds when the stored count starts in range (`RangePreserved`), not a guarantee for every stored count.

## Model

| member | source | states |
|---|---|---|
| PyStr.LStrip | ai_service.py:292 | `strip`'s left half: the result is a suffix of the input, everything dropped is whitespace, and the result does not start with whitespace |
| PyStr.RStrip | ai_service.py:292 | `strip`'s right half: the result is a prefix of the input, everything dropped is whitespace, and the result does not end with whitespace |
| PyStr.StripEmptyIffAllSpace | image_utils.py:68 | `not paragraph.strip()` holds exactly when every character of the paragraph is whitespace |
| PyStr.Find | ai_service.py:302 | `find`: -1 exactly when the character is absent; otherwise an index holding it with no earlier occurrence |
| PyStr.RFind | ai_service.py:303 | `rfind`: -1 exactly when the character is absent; otherwise an index holding it with no later occurrence |
| PyStr.Split | image_utils.py:67 | `split("\n")` gives at least one piece and no piece holds the separator |
| PyStr.JoinSplit | image_utils.py:67 | joining the pieces of a split with the separator gives the text back, so the paragraphs cover the text exactly |
| PyStr.SplitJoin | ai_service.py:562-565 | splitting a join of separator-free pieces gives the pieces back |
| Config.LookupIn | config.py:25-38 | lookup in the font table: found exactly when some entry has the key, and then the entry's description |
| Config.LookupFont | image_utils.py:20-21 | a key is found exactly when it is one of the table's keys, and then the result is that entry's description |
| ImageUtils.RequestedFontPath | image_utils.py:20-22 | a bundled font path is requested exactly when the key is present and in the font table (an empty or unknown key requests none), and the path is that key's file joined to the fonts directory |
| ImageUtils.LoadFont | image_utils.py:18-39 | the requested font if its file opens; else the first system fallback that opens, with every earlier fallback failing; else the default font only when no fallback opens |
| ImageUtils.TruncDiv | image_utils.py:52 | Python's `int()` of a quotient truncates toward zero: bounds for non-negative and for negative dividends |
| ImageUtils.CalcDynamicFontSize | image_utils.py:42-61 | the size is always in [48, 250]; strictly inside, it is the base size (7% of the width for at most 6 characters, 5.5% for 7 to 12, 4.5% beyond, truncated toward zero); at 48 the base size was at most 48; at 250 it was at least 250 |
| ImageUtils.FontSizeIgnoresHeight | image_utils.py:42-61 | the image height never changes the size |
| ImageUtils.FontSizeMonotoneInWidth | image_utils.py:52-61 | for a fixed text length, a wider image never gets a smaller size |
| ImageUtils.FontSizeAntitoneInLength | image_utils.py:52-61 | for a fixed width, a shorter text never gets a smaller size |
| ImageUtils.WrapText | image_utils.py:64-86 | the lines are the wrap of each `\n`-separated paragraph, paragraph after paragraph |
| ImageUtils.WrapParagraphsAppend | image_utils.py:67-70 | paragraphs are wrapped in order: wrapping a + b gives the lines of a followed by the lines of b |
| ImageUtils.WrapNonBlankParagraph | image_utils.py:72-84 | the inner character loop emits exactly the greedy lines of the paragraph |
| ImageUtils.GreedyConcat | image_utils.py:72-84 | the greedy lines concatenate to the paragraph exactly: no character is lost, duplicated or moved |
| ImageUtils.GreedyNonEmpty | image_utils.py:80-84 | no emitted line of a non-blank paragraph is empty |
| ImageUtils.GreedyFits | image_utils.py:73-82 | every emitted line fits the maximum width or is a single character |
| ImageUtils.GreedyMaximal | image_utils.py:77-82 | a line followed by another would be too wide with the next line's first character appended |
| ImageUtils.WrapParagraphSpec | image_utils.py:67-84 | a blank paragraph gives exactly one empty line; any other gives at least one line, all non-empty, concatenating to the paragraph, each fitting or a single character, and maximal |
| AiService.DefaultImageModels | ai_service.py:23-26 | without an environment override the image models are tried as gemini-2.5-flash-image, then gemini-2.0-flash-exp-image-generation |
| AiService.ScheduleLength | ai_service.py:36-37 | the plan has exactly (number of models) * retries calls |
| AiService.CallImageModelWithRetry | ai_service.py:29-61 | the calls made are a prefix of the plan (models in order, attempts 0 to max_retries-1 per model, with the given modalities or image plus text when none are given); every call before the last was an overload; an answer is returned from the last call; a non-overload exception is re-raised unchanged from the last call; the ValueError comes only after the whole plan was overloaded, and always when every one of the 2 * max(max_retries, 0) planned calls is overloaded; one wait of (attempt+1)*3 follows each overloaded call |
| AiService.AllOverloadedCallCount | ai_service.py:36-61 | the full plan, which is exactly the calls made on the all-overloaded ValueError path, has 2 * max(max_retries, 0) calls |
| AiService.ImageBytesIsLastInline | ai_service.py:373-379 | the image is the data of the last part with inline data, whatever follows it; with no such part there is no image |
| AiService.DescriptionIsLastText | ai_service.py:373-377 | the description is the text of the last part without inline data; parts with inline data never set it; with none it stays empty |
| AiService.ExtractImage | ai_service.py:370-382 | the part loop returns the last image and the last text-only description, or the ValueError "Gemini 未回傳圖片" when no part carries an image |
| AiService.RequestImage | ai_service.py:367-382 | an image endpoint's calls are a prefix of the plan with 3 attempts per model and image plus text, so at most 6; all but the last are overloads; an answer yields no-candidates IndexError, the no-image ValueError, or the last image and last text-only description of the first candidate; a non-overload exception is the last call's, re-raised unchanged; the all-overloaded ValueError comes after exactly 6 overloaded calls |
| AiService.ClosingFenceFacts | ai_service.py:296 | the closing-fence pattern matches exactly when the reply, right-stripped, ends in three backticks, and only at that position |
| AiService.StripClosingFence | ai_service.py:296 | where the closing fence matches, the text is cut before it, and also before a newline just ahead of it; with no match the text is unchanged |
| AiService.BraceSpan | ai_service.py:302-304 | no brace span exactly when the text lacks a '{' or a '}' |
| AiService.BraceSpanIsFirstToLast | ai_service.py:302-306 | the span runs from the first '{' to the last '}' inclusive, and is empty when the last '}' comes before the first '{' |
| AiService.PlainReplyParses | ai_service.py:292-299 | a reply without a fence that the parser accepts once stripped reads as that parse |
| AiService.ChattyReplyParses | ai_service.py:298-306 | when the cleaned reply does not parse but is chatter around one object from its first '{' to its last '}', the object's parse is the result |
| AiService.UnparseableReplyKeptRaw | ai_service.py:298-311 | when the cleaned reply does not parse, and it lacks a brace or the text from its first '{' to its last '}' does not parse either, the result is the original reply as raw text, never an exception |
| AiService.OpeningOfFenced | ai_service.py:295 | the opening pattern drops the three backticks, "json" and the whitespace after them |
| AiService.ClosingOfUnfenced | ai_service.py:296 | the closing pattern drops the closing fence together with the newline before it |
| AiService.FencedReplyIsBody | ai_service.py:291-296 | a body wrapped in a ```json fence is cleaned back to the body, when the body does not start with whitespace |
| AiService.FencedReplyParses | ai_service.py:291-299 | a fenced body the parser accepts is what the reply reads as |
| AiService.RecommendFont | ai_service.py:578-585 | the key is a table key or "noto_sans_bold"; the stripped, lower-cased reply is returned when it is a table key, and the default otherwise |
| AiService.DefaultRecommendationNotInTable | ai_service.py:580-582 | the default "noto_sans_bold" is not a key of the font table, and an empty reply gets it |
| AiService.FontListLineShape | ai_service.py:563 | a line built from newline-free fields has no newline and starts with "- " and the key |
| AiService.FontListLinesBack | ai_service.py:562-565 | splitting the joined font list on newlines gives back one line per entry, in order, each starting with "- " and the entry's key |
| AiService.BundledFontListLines | ai_service.py:562-565 | for the bundled table the font list has two lines, Noto Sans first, then Noto Serif |
| Subscription.UnverifiedEntitlementsIgnored | UrbanApp/UrbanApp/UrbanAPP/UrbanAPP/Services/SubscriptionManager.swift:118-124 | unverified entitlements never make a subscriber: adding them changes nothing, and a list of only unverified ones gives false |
| Subscription.PrivilegedNeverCharged | UrbanApp/UrbanApp/UrbanAPP/UrbanAPP/Services/SubscriptionManager.swift:145-162 | a subscriber or developer is granted by both gates with the state untouched: no load, decrement or save |
| Subscription.FreeUseDecrementsByOne | UrbanApp/UrbanApp/UrbanAPP/UrbanAPP/Services/SubscriptionManager.swift:148-154 | on the free path, a loaded count above 0 drops by exactly 1, is saved, and the use is granted; at 0 or below the use is denied and nothing beyond the load is written |
| Subscription.CanUseAgreesWithUseFreeUse | UrbanApp/UrbanApp/UrbanAPP/UrbanAPP/Services/SubscriptionManager.swift:145-162 | `canUse` answers what `useFreeUse` would, never leaves a lower count, and its only write is the day-rollover reset |
| Subscription.CanUseIdempotent | UrbanApp/UrbanApp/UrbanAPP/UrbanAPP/Services/SubscriptionManager.swift:158-162 | asking `canUse` twice is the same as asking once |
| Subscription.RangePreserved | UrbanApp/UrbanApp/UrbanAPP/UrbanAPP/Services/SubscriptionManager.swift:145-209 | counts in 0..3 (in memory and stored) stay in 0..3 after either gate |
| Subscription.CountNeverRisesWithinDay | UrbanApp/UrbanApp/UrbanAPP/UrbanAPP/Services/SubscriptionManager.swift:192-204 | on a day not after the saved one, `useFreeUse` never raises the stored count, `canUse` leaves it, and the saved day is not moved past today |
| Subscription.FreeUseCountdown | UrbanApp/UrbanApp/UrbanAPP/UrbanAPP/Services/SubscriptionManager.swift:145-155 | with c uses loaded, k calls on one day are granted exactly the first min(c, k) times, and the in-memory and stored count both end at c - k, or 0 once exhausted |
| Subscription.PrivilegedRun | UrbanApp/UrbanApp/UrbanAPP/UrbanAPP/Services/SubscriptionManager.swift:145-146 | a subscriber or developer is granted every time and the quota is never touched, however many calls are made |
| Subscription.DailyQuotaScenario | UrbanApp/UrbanApp/UrbanAPP/UrbanAPP/Services/SubscriptionManager.swift:145-204 | on a fresh install, four calls in one day give granted, granted, granted, denied; the next day is granted with 2 left |
| Subscription.UseFreeUseRunKeepsDay | UrbanApp/UrbanApp/UrbanAPP/UrbanAPP/Services/SubscriptionManager.swift:192-209 | after a non-privileged run the saved day is set, and it is either not later than today or the day saved before the run |
| Subscription.DevFlagSticky | UrbanApp/UrbanApp/UrbanAPP/UrbanAPP/Services/SubscriptionManager.swift:132-140 | once the developer flag is set, no sequence of quota operations clears it, and every later use is granted without touching the quota |
| Subscription.InsertByPrice | UrbanApp/UrbanApp/UrbanAPP/UrbanAPP/Services/SubscriptionManager.swift:65 | inserting into a price-sorted list keeps it sorted and adds exactly the one product |
| Subscription.SortByPrice | UrbanApp/UrbanApp/UrbanAPP/UrbanAPP/Services/SubscriptionManager.swift:65 | the products, cheapest first: sorted by price and a permutation of the input |
| Subscription.FinishedByAppend | UrbanApp/UrbanApp/UrbanAPP/UrbanAPP/Services/SubscriptionManager.swift:177-183 | the transactions finished over two update streams in a row are those of the first followed by those of the second |
| Subscription.UnverifiedUpdatesChangeNothing | UrbanApp/UrbanApp/UrbanAPP/UrbanAPP/Services/SubscriptionManager.swift:177-183 | a stream of unverified updates finishes nothing and leaves the subscription flag as it was |
| Subscription.FinishedOnlyVerified | UrbanApp/UrbanApp/UrbanAPP/UrbanAPP/Services/SubscriptionManager.swift:179-181 | every finished transaction comes from a verified update |
| Subscription.SubscriptionManager.constructor | UrbanApp/UrbanApp/UrbanAPP/UrbanAPP/Services/SubscriptionManager.swift:24-47 | on launch: not subscribed, nothing loaded, no errors, and the stored quota loaded for today from a count of 3 |
| Subscription.SubscriptionManager.EnableDevMode | UrbanApp/UrbanApp/UrbanAPP/UrbanAPP/Services/SubscriptionManager.swift:132-140 | the persisted developer flag is set, so `IsDevMode()` holds afterwards; nothing else changes |
| Subscription.SubscriptionManager.SaveFreeUses | UrbanApp/UrbanApp/UrbanAPP/UrbanAPP/Services/SubscriptionManager.swift:206-209 | the store holds the in-memory count and today's day; no other field changes |
| Subscription.SubscriptionManager.LoadFreeUses | UrbanApp/UrbanApp/UrbanAPP/UrbanAPP/Services/SubscriptionManager.swift:192-204 | the quota state becomes `Loaded` of the old one (rollover reset and save, or read back); other fields are unchanged |
| Subscription.SubscriptionManager.UseFreeUse | UrbanApp/UrbanApp/UrbanAPP/UrbanAPP/Services/SubscriptionManager.swift:145-155 | the answer and the new quota state are those of `UseFreeUseStep`, so all the quota lemmas apply to the method; other fields are unchanged |
| Subscription.SubscriptionManager.CanUse | UrbanApp/UrbanApp/UrbanAPP/UrbanAPP/Services/SubscriptionManager.swift:158-162 | the answer and the new quota state are those of `CanUseStep`; other fields are unchanged |
| Subscription.SubscriptionManager.CheckSubscriptionStatus | UrbanApp/UrbanApp/UrbanAPP/UrbanAPP/Services/SubscriptionManager.swift:115-127 | subscribed exactly when some entitlement is verified and auto-renewable; an empty or all-unverified list revokes a previous subscription; the quota is untouched |
| Subscription.SubscriptionManager.RestorePurchases | UrbanApp/UrbanApp/UrbanAPP/UrbanAPP/Services/SubscriptionManager.swift:108-111 | after the sync the flag is recomputed from the entitlements, so zero entitlements revoke |
| Subscription.SubscriptionManager.Purchase | UrbanApp/UrbanApp/UrbanAPP/UrbanAPP/Services/SubscriptionManager.swift:77-104 | ends with the purchasing flag cleared. A verified success finishes the transaction, refreshes the status and leaves no error. Cancellation and unknown results leave no error. Pending sets the pending message without a refresh. A verification failure or a thrown error sets "購買失敗：" plus the description, finishes nothing and keeps the flag. The quota, products and load error are untouched |
| Subscription.SubscriptionManager.LoadProducts | UrbanApp/UrbanApp/UrbanAPP/UrbanAPP/Services/SubscriptionManager.swift:55-73 | the product identifiers are asked for. Fetched products become the list, sorted by price and a permutation of the answer, and an empty answer sets the "no products" message. A failure keeps the list and sets "載入失敗：" plus the description |
| Subscription.SubscriptionManager.ListenForTransactions | UrbanApp/UrbanApp/UrbanAPP/UrbanAPP/Services/SubscriptionManager.swift:175-185 | only verified updates are finished, in order, each followed by a status refresh; unverified updates change nothing; no other field changes |

## Left out

- CalcDynamicFontSize: Python's multiplications by 0.045, 0.055 and 0.07 in binary floating point are modelled as exact rationals (w*45/1000, w*55/1000, w*7/100) truncated toward zero. A product that lands within rounding error of an integer may truncate differently in the source.
- PyStr.Lower: lower-cases A-Z only; it is also used by the overload test (`IsOverloadMessage`). There it gives the same answer as Python's `lower`, because the only non-ASCII characters that lower-case into ASCII are U+0130 and U+212A, and neither can complete a match: U+212A gives "k", which occurs in neither word, and U+0130 gives "i" followed by a combining dot, while the "i" of "unavailable" is followed by "l". Every other character either stays ASCII under both or stays non-ASCII under both. Elsewhere, Python's `str.lower` also lower-cases other alphabets. All font keys are ASCII, so only a reply that lower-cases to an ASCII key through a non-ASCII letter (for example the Kelvin sign) is treated differently.
- The two regular expressions of the JSON reader are modelled by hand, as `StripOpeningFence` and `StripClosingFence`. `\s` is Python's `isspace` set.
- JSON decoding is the abstract partial parser `parse`. The JSON grammar itself is not modelled.
- The Gemini client, the prompts, the logging and `time.sleep` are not modelled. Call outcomes come from the `respond` oracle; sleeps are recorded in `waits`.
- The environment override of the configured image model is a parameter (`configuredModel`); `Config.DefaultImageModel` is the value used when the environment sets none.
- `recommend_font`'s model call, prompt formatting and temperature are not modelled; `RecommendFont` takes the reply text. A reply whose `response.text` is `None` (the source would raise on `.strip()`) is not modelled.
- Candidates whose `content` or `parts` is `None` are not modelled: the parts of a candidate are always a list.
- A response whose `candidates` is `None` raises a TypeError at ai_service.py:373; the model has no such response, and its nearest case, an empty candidate list, is the IndexError.
- `overlay_text_on_image` and the rest of the raster compositing in `image_utils.py` (gradients, blur, drawing) are not modelled. Fonts are known only through their width function and whether their file opens.
- The wrapping's inner loop is the separate method `WrapNonBlankParagraph`, called from `WrapText`'s paragraph loop.
- StoreKit (`Product.products`, `purchase`, `AppStore.sync`, `Transaction.currentEntitlements`, `Transaction.updates`, `finish`) is given as inputs: fetch outcomes, purchase outcomes, entitlement lists and update sequences. `finish` is recorded in the `finished` field.
- Subscription.SubscriptionManager.Purchase: the localized description of a verification failure is platform text, given as the parameter `failedVerificationText`.
- Subscription.SubscriptionManager.ListenForTransactions: the detached task, its weak reference to the manager and the interleaving with other operations are not modelled. The listener handles a finite sequence of updates, and the entitlements at each update are given by `entitlementsAt`.
- `@MainActor`, `Task`, `async`/`await` and concurrency in general are not modelled: every operation runs to completion on its own.
- `UserDefaults` and `Calendar` are the `Defaults` field and integer day numbers. `loadFreeUses` and `saveFreeUses` each read the clock. The model gives one operation a single day number, so a call that straddles midnight is not modelled.
- Subscription.SortByPrice: Swift's `sorted` does not promise an order for equal prices. The model states only sortedness and permutation, and so leaves the order of equal-priced products open.
- Product prices are integers in the smallest currency unit, not `Decimal`.
- The product list print statements and the `static let shared` singleton are not modelled.
- Flask routes, the SwiftUI views and the network client are not modelled. The routes also call backend operations outside this model (caption from image, trending captions, algorithm scoring and short captions). No route reaches the modelled layout code: `overlay_text_on_image`, the only caller of the font size, font loading and wrapping, is imported but not called by any route, and the design route calls `design_with_ai` instead. The views' only quota logic is the `useFreeUse` gate.
