# Object-processing tasks and core helpers, modelled in Dafny

This project models two files of the platform's core application.

- `apps/core/tasks.py`. This is the base of the background tasks that work through a
  tenant instance's backlog one object per run. A run:
  - takes the object that has waited longest;
  - counts the attempt in a shared Redis counter (`attempt:<task name>:<instance pk>`);
  - lets the task's `process_object` work on the object;
  - saves the changed fields together with `updated_at`;
  - decides from the attempt number and the kind of error whether to retry quietly,
    retry after a countdown, or hand the error to `handle_exception`.

  When the task lock is released and the backlog is not empty, the task submits itself
  again. A call for an instance that no longer exists returns before running.
- `apps/core/helpers.py`. This file holds:
  - the base-62 codec used in access tokens (`base_encode` / `base_decode`);
  - parity tagging of generated API keys (`generate_key`, `check_parity`);
  - the `*` wildcard matcher `glob`;
  - `sanitize_text`, `format_error`, `dict_get_any`, `get_loc_env` and
    `revalidate_integrityerror`;
  - the thread-reentrant Redis lock `ReentrantLock`.

Code that changes state is modelled as classes whose methods are proved against pure
functions that describe their effect:
- the Redis store (`Store.KeyValueStore`);
- the task and the object it processes (`ObjectProcessor.ObjectProcessorTask`,
  `ObjectProcessor.WorkObject`);
- the reentrant lock and its per-thread registry (`ReentrantLocks`).

The properties of a run are lemmas about the pure function `ObjectProcessor.RunSpec`, and
`ObjectProcessorTask.Run` is proved to change the state exactly as `RunSpec` says. Pure
helpers are functions with lemmas. The loops of `base_encode`, the middle-piece loop of
`glob` and the retry loop of `revalidate_integrityerror` are methods with loop
invariants; the short search loop of `dict_get_any` is the recursive function
`Lookups.DictGetAny`. Consecutive runs on one object are the fold `ObjectProcessor.Runs` of `RunSpec`.

Inputs that come from outside are parameters:
- the ORM query result (the stalest object, or none) and whether the backlog is non-empty;
- what `process_object` writes and how it ends, and whether the database save raises;
- whether the instance exists;
- the random HMAC digest of `generate_key`;
- the process environment;
- what the underlying Redis lock answers;
- what the save and validation callbacks do on each call.

Files:
- `wrappers.dfy`: the Option type.
- `decimal.dfy`: decimal text of integers, as `'%s' % pk` writes it.
- `task_keys.dfy`: the task, attempt and lock keys.
- `store.dfy`: the key-value store.
- `retry_policy.dfy`: the retry decision.
- `object_processor.dfy`: the run.
- `base62.dfy`, `key_parity.dfy`, `glob.dfy`, `sanitize.dfy`, `format_error.dfy`,
  `lookups.dfy`, `revalidate.dfy` and `reentrant_lock.dfy`: the helpers.

Two behaviours of the code are worth spelling out:
- When a run gives up, `handle_exception` is called (`apps/core/tasks.py:196` and
  `apps/core/tasks.py:208`), and then the attempt counter is deleted
  (`apps/core/tasks.py:211`); it is not left to expire. `ObjectProcessor.RunCounter`
  states this.
- `after_lock_released` (`apps/core/tasks.py:213-218`) resubmits the task whenever a
  current instance is set and the backlog query still finds objects, whatever the last run
  decided, so a run that gave up is followed by another submission.
  `ObjectProcessorTask.AfterLockReleased` models this, and
  `ObjectProcessor.TwoUnexpectedFailures` shows the second resubmission.

## Model

| member | source | states |
|---|---|---|
| Decimal.NatToString | apps/core/tasks.py:150 | the decimal text of a natural number is non-empty, made of digits, and has no leading zero |
| Decimal.IntToString | apps/core/tasks.py:150 | the text of an instance pk starts with '-' exactly for negative numbers, is otherwise digits, and never contains ':' |
| Decimal.IntToStringRoundTrip | apps/core/tasks.py:150 | reading the text of a pk back gives the pk |
| Decimal.IntToStringInjective | apps/core/tasks.py:150 | distinct pks have distinct texts |
| TaskKeys.TaskKey | apps/core/tasks.py:149-150 | the task key is the task name, then ':', then the pk's text |
| TaskKeys.AttemptKey | apps/core/tasks.py:152-153 | the attempt key is 'attempt:' followed by the task key |
| TaskKeys.LockKey | apps/core/tasks.py:155-156 | the lock key is 'lock:' followed by the task key |
| TaskKeys.SeparatorIsLast | apps/core/tasks.py:149-150 | the ':' after the name is the last ':' of the task key |
| TaskKeys.TaskKeyInjective | apps/core/tasks.py:149-150 | equal task keys have equal task names and equal instance pks |
| TaskKeys.AttemptKeyInjective | apps/core/tasks.py:152-153 | each task and instance has its own attempt counter key |
| TaskKeys.LockKeyInjective | apps/core/tasks.py:155-156 | each task and instance has its own lock key |
| TaskKeys.AttemptKeyIsNotLockKey | apps/core/tasks.py:152-156 | no attempt key equals any lock key |
| Store.KeyValueStore.Count | apps/core/tasks.py:179 | definition: the integer INCR starts from, CountIn of the store's values (an absent key counts as 0) |
| Store.KeyValueStore.constructor | apps/core/tasks.py:179-180 | a new store is empty and valid |
| Store.KeyValueStore.Incr | apps/core/tasks.py:179 | INCR returns the old count plus one, stores it, and keeps the key's time to live |
| Store.KeyValueStore.Expire | apps/core/tasks.py:180 | EXPIRE with a positive timeout gives an existing key that time to live and reports whether the key exists; values are untouched |
| Store.KeyValueStore.Delete | apps/core/tasks.py:211 | DEL removes the key and its time to live, so it counts 0 again, and reports how many keys went |
| RetryPolicy.Judge | apps/core/tasks.py:185-211 | the run is done iff there is no error; it retries quietly iff the error is a retryable ProcessingError before the last attempt; it retries after attempt * delay iff the error is unexpected before the last attempt; otherwise it gives up with that error |
| RetryPolicy.Replay | apps/core/tasks.py:179-211 | the retry policy replayed on the counter alone, one step per failure, the first step seeing attempt count + 1; ObjectProcessor.RunsFollowReplay proves that consecutive runs on one object, with any callbacks and save outcomes, take exactly these steps |
| RetryPolicy.CounterStaysBelowLimit | apps/core/tasks.py:189-211 | a run started below max_attempts leaves the counter below max_attempts |
| RetryPolicy.AttemptsBounded | apps/core/tasks.py:179-211 | from a counter below max_attempts, every step of Replay sees an attempt number between 1 and max_attempts (ObjectProcessor.RunsAttemptsBounded carries this over to runs) |
| RetryPolicy.BoundedRetry | apps/core/tasks.py:189-208 | on Replay, a failure that keeps recurring (other than a non-retryable ProcessingError) is retried with attempt numbers count+1, count+2, … (countdown attempt * delay for unexpected errors), and the last step gives up |
| ObjectProcessor.SaveFields | apps/core/tasks.py:163 | save(update_fields=…) writes exactly the listed fields' in-memory values to the row and keeps every other stored field |
| ObjectProcessor.Changes | apps/core/tasks.py:160 | whats_changed(): a subset of the object's fields, empty exactly when every field is saved with its in-memory value |
| ObjectProcessor.FailureOf | apps/core/tasks.py:185-187 | the try block ends with the callback's own error, with no error when it returned False, with no error when it returned anything else and nothing changed, and otherwise with exactly the save's error (none when the save went through) |
| ObjectProcessor.RunSpec | apps/core/tasks.py:168-211 | with no pending object the run only clears the countdown; with one it processes that object and keeps its pk |
| ObjectProcessor.RunTouchesOnlyItsCounter | apps/core/tasks.py:178-211 | a run only appends effects and leaves every store key but its own attempt counter, and its time to live, unchanged |
| ObjectProcessor.RunCounter | apps/core/tasks.py:178-211 | after a run the attempt counter holds the attempt number, with lock_expire as its time to live, exactly when the run retries; otherwise it is deleted |
| ObjectProcessor.RunKeepsCounterBelowLimit | apps/core/tasks.py:178-211 | a run started with the counter below max_attempts leaves it below max_attempts |
| ObjectProcessor.RunCountdown | apps/core/tasks.py:171-203 | the countdown is set iff the error is unexpected and the attempt is below max_attempts, and it is then attempt * default_retry_delay |
| ObjectProcessor.RunHandlesException | apps/core/tasks.py:188-208 | handle_exception is called, once, iff the run fails at or past max_attempts or with a ProcessingError that refuses retry |
| ObjectProcessor.Failures | apps/core/tasks.py:185-187 | definition: the failure each run's try block ends with, run by run (FailureOf of its callback and save outcome) |
| ObjectProcessor.RunsFollowReplay | apps/core/tasks.py:178-211 | consecutive runs on one object, whatever each callback does and whether each save fails, make exactly Replay's steps on the failures they end with: the same attempt numbers and verdicts |
| ObjectProcessor.RunsAttemptsBounded | apps/core/tasks.py:178-211 | from a counter below max_attempts, every one of any number of consecutive runs sees an attempt number between 1 and max_attempts |
| ObjectProcessor.RecurringFailures | apps/core/tasks.py:185-197 | runs whose callback writes nothing and raises f each end their try block with f |
| ObjectProcessor.RunsGiveUpOnce | apps/core/tasks.py:178-211 | from a counter below max_attempts, max_attempts - count runs whose callback keeps raising the same failure other than a non-retryable ProcessingError call handle_exception exactly once, then delete the counter and its time to live, and leave no countdown |
| ObjectProcessor.RunsRetryThenGiveUp | apps/core/tasks.py:188-208 | those runs see attempts count+1, count+2, …, every run but the last retries (after attempt * retry delay for an unexpected error), and the last one gives up |
| ObjectProcessor.DefaultAttemptsGiveUpAtOnce | apps/core/tasks.py:188-211 | with the default max_attempts of 1, a run that fails calls handle_exception once, deletes the counter and schedules no retry |
| ObjectProcessor.RunSaves | apps/core/tasks.py:158-187 | the object is saved iff process_object did not return False, something changed and the save succeeds; the save lists the changes plus updated_at, and afterwards nothing is left changed |
| ObjectProcessor.SaveLeavesNothingChanged | apps/core/tasks.py:158-163 | saving the changed fields and updated_at leaves whats_changed() empty |
| ObjectProcessor.WorkObject.constructor | apps/core/tasks.py:173 | a new object holds the given fields and stored row |
| ObjectProcessor.WorkObject.Save | apps/core/tasks.py:163 | save either writes the listed fields to the row or raises and changes nothing |
| ObjectProcessor.ObjectProcessorTask.constructor | apps/core/tasks.py:136-138 | a new task has no instance, no countdown and no effects |
| ObjectProcessor.ObjectProcessorTask.SaveObject | apps/core/tasks.py:158-163 | save_object saves the changed fields plus updated_at when anything changed, and otherwise does nothing |
| ObjectProcessor.ObjectProcessorTask.TryProcess | apps/core/tasks.py:185-187 | the try block applies the callback's writes, saves unless it returned False, and reports the error it ends with (FailureOf) |
| ObjectProcessor.ObjectProcessorTask.Settle | apps/core/tasks.py:188-211 | the except clauses and the clean-up: a retry keeps the counter (and sets the countdown for an unexpected error); every other outcome calls the handler if it gave up and deletes the counter |
| ObjectProcessor.ObjectProcessorTask.Run | apps/core/tasks.py:168-211 | run changes the store, the countdown, the effects and the object exactly as RunSpec says |
| ObjectProcessor.ObjectProcessorTask.Call | apps/core/tasks.py:66-79 | a call for a missing instance sets the instance to None and changes nothing else; otherwise it records the instance as current and runs |
| ObjectProcessor.ObjectProcessorTask.AfterLockReleased | apps/core/tasks.py:213-218 | the task resubmits itself iff there is a current instance and a backlog, carrying the countdown when one is set |
| ObjectProcessor.TwoUnexpectedFailures | apps/core/tasks.py:197-218 | with two attempts allowed and two unexpected failures, the first run resubmits after 10 seconds, the second resubmits with no countdown and resets the counter |
| Base62.BaseListSymbols | apps/core/helpers.py:641 | BASE_LIST has 62 symbols: the digits, then the lower-case letters, then the upper-case letters |
| Base62.DigitValue | apps/core/helpers.py:642 | BASE_DICT maps each symbol to a position below 62, and only '0' to 0 |
| Base62.SymbolDigit | apps/core/helpers.py:641-642 | BASE_DICT maps the symbol at each position back to that position |
| Base62.DigitSymbol | apps/core/helpers.py:641-642 | every key of BASE_DICT sits in BASE_LIST at the position it maps to |
| Base62.DigitsAreBaseList | apps/core/helpers.py:641-642 | the keys of BASE_DICT are exactly the characters of BASE_LIST |
| Base62.DigitsValue | apps/core/helpers.py:645-647 | the positional value of a numeral is never negative |
| Base62.BaseDecode | apps/core/helpers.py:645-647 | base_decode succeeds iff every character is in BASE_LIST (a KeyError otherwise), gives a non-negative value, and gives 0 for the empty string |
| Base62.Quot | apps/core/helpers.py:658 | int(integer / 62) truncates toward zero: floor division for a non-negative number, the negated quotient of the magnitude for a negative one; it strictly shrinks a non-zero magnitude |
| Base62.BaseEncode | apps/core/helpers.py:650-660 | base_encode returns a non-empty string of base-62 digits with no leading '0' unless the input is 0, and decoding it gives every non-negative input back |
| Base62.EncodeDigitsAreDigits | apps/core/helpers.py:654-658 | the loop writes only BASE_LIST symbols, and a non-zero input gets a leading symbol other than '0' |
| Base62.EncodedIsCanonical | apps/core/helpers.py:650-660 | every output is non-empty, "0" for zero, and free of a leading '0' otherwise |
| Base62.DigitsValueOfEncodeDigits | apps/core/helpers.py:645-658 | the digits the loop writes for n >= 0 have the value n |
| Base62.DecodeEncode | apps/core/helpers.py:645-660 | base_decode(base_encode(n)) == n for every n >= 0 |
| Base62.LeadingDigitPositive | apps/core/helpers.py:645-647 | a numeral with a leading digit other than '0' has a positive value |
| Base62.EncodeDecode | apps/core/helpers.py:645-660 | base_encode(base_decode(s)) == s for every canonical numeral s |
| Base62.EncodeStep | apps/core/helpers.py:654-658 | one turn of the loop: n = q * 62 + d is written as q's digits followed by symbol d |
| Base62.ValueLastDigit | apps/core/helpers.py:645-647 | a numeral's value is the value of all but its last digit times 62, plus the last digit |
| Base62.EncodeLastDigit | apps/core/helpers.py:645-658 | encoding a numeral's value writes the encoding of the rest, then the last digit |
| Base62.EncodeDigitsOfValue | apps/core/helpers.py:645-658 | encoding the value of a numeral without a leading '0' gives the numeral |
| KeyParity.HexValue | apps/core/helpers.py:496-507 | int(c, 16) gives a value below 16 for every hex digit, reads 'A'-'F' as 'a'-'f', and fails exactly on the other characters |
| KeyParity.HexSymbol | apps/core/helpers.py:501 | '{0:x}'.format(v) writes a lower-case hex digit that reads back as v |
| KeyParity.CheckParity | apps/core/helpers.py:506-507 | check_parity is True iff the last hex digit is even; it raises on an empty key or a non-hex last character |
| KeyParity.LowBit | apps/core/helpers.py:497-507 | on a hex digit, `& 0b1` tests evenness, `&= 0b1110` clears the low bit and or-ing in `0b1` sets it |
| KeyParity.ForceParity | apps/core/helpers.py:496-500 | the forced digit is a hex digit with the requested parity and the same three high bits |
| KeyParity.ReplaceLast | apps/core/helpers.py:501 | digest[:-1] + one hex digit is again a 40-digit hexdigest that keeps the first 39 digits |
| KeyParity.GenerateKey | apps/core/helpers.py:492-503 | generate_key returns a 40-digit hexdigest that keeps the digest's first 39 digits, is the digest itself without a parity, and otherwise passes check_parity exactly when parity is True |
| Glob.FindFrom | apps/core/helpers.py:755-758 | a search from an index reports an index at or after it with room for the piece |
| Glob.FindFromOccurs | apps/core/helpers.py:755-758 | what the search reports is an occurrence of the piece |
| Glob.Find | apps/core/helpers.py:755-758 | str.index reports an occurrence of the piece |
| Glob.FindFromIsFirst | apps/core/helpers.py:755-758 | no occurrence comes before the one the search reports, and it reports one whenever there is one |
| Glob.FindIsFirst | apps/core/helpers.py:755-758 | str.index reports the first occurrence, and `in` is true whenever there is one |
| Glob.FindInSuffix | apps/core/helpers.py:758 | searching what is left of the subject after a cut is searching the subject from the cut |
| Glob.FoundInSuffix | apps/core/helpers.py:758 | an occurrence after a cut is found by the search from the cut, no later |
| Glob.FoundAfter | apps/core/helpers.py:758 | an occurrence after a cut is found in what is left after the cut, no later |
| Glob.Split | apps/core/helpers.py:740 | str.split('*') yields at least one piece |
| Glob.StarAt | apps/core/helpers.py:740 | a '*' at an index is an occurrence of "*" there |
| Glob.NoStarBefore | apps/core/helpers.py:740 | there is no '*' before the first one str.index finds |
| Glob.SplitJoin | apps/core/helpers.py:740 | joining the pieces with '*' gives the pattern back |
| Glob.SplitPieces | apps/core/helpers.py:740 | no piece holds a '*' |
| Glob.StartsWithIsPrefix | apps/core/helpers.py:749 | str.startswith is the prefix relation |
| Glob.EndsWithIsSuffix | apps/core/helpers.py:760 | str.endswith holds exactly when the subject is some text followed by the suffix |
| Glob.SplitSingle | apps/core/helpers.py:740-743 | the pattern splits into one piece iff it has no '*' |
| Glob.Consumed | apps/core/helpers.py:753-758 | the search for the pieces in order stops at or after where it starts |
| Glob.Glob | apps/core/helpers.py:731-760 | glob as written computes GlobAsWritten |
| Glob.GlobCorrected | apps/core/helpers.py:731-760 | glob with the middle loop over parts[1:-1], starting after the first piece, computes GlobFixed |
| Glob.LeadingStar | apps/core/helpers.py:745-749 | a pattern that starts with '*' has an empty first piece |
| Glob.TrailingStar | apps/core/helpers.py:746-760 | a pattern that ends with '*' has an empty last piece |
| Glob.SplitAt | apps/core/helpers.py:740 | the pattern splits at its first '*' |
| Glob.OnePiece | apps/core/helpers.py:741-743 | a pattern that splits into one piece is that piece |
| Glob.StarSplit | apps/core/helpers.py:737-740 | "*" splits into two empty pieces |
| Glob.EndsWithSuffix | apps/core/helpers.py:760 | the trimmed subject ends with the last piece iff the subject does and that occurrence starts at or after the cut |
| Glob.ConsumedBound | apps/core/helpers.py:753-758 | a search that starts inside the subject stops inside it |
| Glob.ConsumedSnoc | apps/core/helpers.py:753-758 | searching for one more piece continues where the search for the others stopped |
| Glob.ConsumedOne | apps/core/helpers.py:755-758 | searching for a single piece stops right after its first occurrence |
| Glob.ConsumedStep | apps/core/helpers.py:753-758 | one turn of the middle loop: searching the trimmed subject is the search from the cut, and the new trim is the subject after the find |
| Glob.ConsumedNoneLonger | apps/core/helpers.py:755-756 | once a piece is not found, the search for more pieces fails as well |
| Glob.ConsumedShorter | apps/core/helpers.py:753-758 | a search for fewer pieces stops no later than the search for all of them |
| Glob.FindFromLater | apps/core/helpers.py:755-758 | searching from an earlier index finds an occurrence no later |
| Glob.ConsumedLater | apps/core/helpers.py:753-758 | starting the search later never makes it stop earlier |
| Glob.FloatingFirst | apps/core/helpers.py:753-760 | where the pieces have a placement, the first piece has a place |
| Glob.FloatingIsGreedy | apps/core/helpers.py:753-760 | the pieces can be placed in order without overlap, the last ending the subject, iff the greedy left-to-right search succeeds and the last piece ends the subject after it |
| Glob.FloatingToGreedy | apps/core/helpers.py:753-760 | wherever the pieces can be placed, the greedy search succeeds |
| Glob.FloatingToGreedyStep | apps/core/helpers.py:753-760 | the inductive step of FloatingToGreedy |
| Glob.FirstFindNoLater | apps/core/helpers.py:755-758 | taking the first occurrence of a piece never makes the search for the later pieces stop later |
| Glob.GreedyToFloating | apps/core/helpers.py:753-760 | where the greedy search succeeds, its finds are a placement of the pieces |
| Glob.FixedIsExact | apps/core/helpers.py:731-760 | the corrected glob accepts a subject iff the pattern matches it, with '*' standing for any run of characters |
| Glob.AsWrittenComplete | apps/core/helpers.py:731-760 | glob as written accepts every subject the pattern matches |
| Glob.AsWrittenFacts | apps/core/helpers.py:733-760 | as written: an empty pattern matches only the empty subject, "*" matches everything, a pattern without '*' matches only itself, and the first and last pieces anchor the subject unless a star stands there; the last piece is checked on the subject trimmed after the middle search |
| Glob.GlobAcceptsSkippedPiece | apps/core/helpers.py:753-758 | as written, glob('a*b*c', 'ac') is True although 'ac' has no 'b' |
| Glob.SplitThreePieces | apps/core/helpers.py:740 | 'a*b*c' splits into 'a', 'b', 'c' |
| Glob.GlobAcceptsOverlap | apps/core/helpers.py:749-760 | as written, glob('ab*ba', 'aba') is True although the two pieces would overlap |
| Sanitize.StripControl | apps/core/helpers.py:80 | translate(ALL_CONTROL_CHARACTERS) never lengthens the text and leaves no code point below 33 |
| Sanitize.SanitizeText | apps/core/helpers.py:77-81 | sanitize_text keeps None as None; from a text it leaves no control character, keeps every other character as often as it occurs, and a second pass changes nothing |
| Sanitize.StripControlConcat | apps/core/helpers.py:80 | stripping distributes over concatenation, so the kept characters keep their order |
| Sanitize.StripControlKeepsOthers | apps/core/helpers.py:65-80 | every character from 33 up is kept as often as it occurs |
| Sanitize.StripControlKeepsClean | apps/core/helpers.py:80 | a text without control characters passes through unchanged |
| Sanitize.SanitizeIdempotent | apps/core/helpers.py:77-81 | sanitize_text applied twice gives what it gives once |
| FormatError.Format | apps/core/helpers.py:631-638 | a list gives its first item (IndexError when empty), a str gives itself, a dict gives exactly '"key": ' followed by the rendering of its first value's formatted error (IndexError when empty, and the inner error when that one fails), and anything else raises |
| FormatError.Prefix | apps/core/helpers.py:638 | definition: the prefix is the key in double quotes followed by ': ' |
| FormatError.Show | apps/core/helpers.py:638 | definition: '{}'.format renders a string as itself and anything else through str() |
| FormatError.FormatWellFormed | apps/core/helpers.py:631-638 | on well-formed errors format_error never raises and yields the '"key": ' prefixes along the chain of first keys, followed by the message at its end |
| Lookups.DictGetAny | apps/core/helpers.py:588-591 | dict_get_any finds no key iff none of the keys is present, and otherwise the value of the first key present (Some wraps that value, so a present key whose value is None is told apart from no key) |
| Lookups.Upper | apps/core/helpers.py:792 | the model's upper() maps the ASCII lower-case letters to upper case and keeps every other character |
| Lookups.GetLocEnv | apps/core/helpers.py:791-792 | get_loc_env prefers '{LOCATION}_{name}', then name, then the default: it is dict_get_any over those two names, falling back to the default |
| Revalidate.Decider | apps/core/helpers.py:799-807 | the attempt that decides the outcome: every attempt before it hit an integrity error and passed validation, and it did not |
| Revalidate.RevalidateIntegrityError | apps/core/helpers.py:795-809 | returns the first successful save; propagates another exception from the save, or one from validation; and re-raises the first IntegrityError after REVALIDATE_MAX_RETRY failed attempts |
| ReentrantLocks.LockRegistry.constructor | apps/core/helpers.py:223-226 | a new registry is empty, so no name is held |
| ReentrantLocks.LockRegistry.Depth | apps/core/helpers.py:770 | definition: registry[name] on the defaultdict(int), where a missing name reads as 0 |
| ReentrantLocks.ReentrantLock.constructor | apps/core/helpers.py:763-784 | a new lock object, on any name, holds no token and has made no calls |
| ReentrantLocks.ReentrantLock.Acquire | apps/core/helpers.py:768-773 | acquire at positive depth succeeds without touching the Redis lock; at depth 0 it asks the Redis lock once and a grant makes this object the token holder; the depth goes up by one exactly when it succeeds; depth stays positive exactly while some object holds the token |
| ReentrantLocks.ReentrantLock.Release | apps/core/helpers.py:775-784 | an inner release only lowers the depth; the outermost one releases the Redis lock and removes the registry entry when this object holds the token, and otherwise fails with LockError and leaves the depth as it was |
| ReentrantLocks.NestedUse | apps/core/helpers.py:763-784 | nested acquire and release on one object reach the Redis lock only once each, with the calls [acquire, release], and leave the depth at 0 |
| ReentrantLocks.SharedNesting | apps/core/helpers.py:763-784 | two objects on one name, released in reverse order: only the first touches the Redis lock, and the depth returns to 0 |
| ReentrantLocks.SharedMisorderedRelease | apps/core/helpers.py:775-784 | two objects on one name, where the object without the token makes the outermost release: that release fails with LockError and the depth stays at 1 |

## Findings

| source | as written | input that shows it | evidently intended | confidence | as-written member | corrected member |
|---|---|---|---|---|---|---|
| apps/core/helpers.py:753-758 | the middle loop runs `for i in range(len(parts) - 2)` over parts[0] … parts[len-3], so it looks for the first piece again and never for the last middle piece | glob('a*b*c', 'ac') is True | the loop covers parts[1] … parts[len-2], the pieces between the first and the last | not executed | Glob.GlobAcceptsSkippedPiece | Glob.FixedIsExact |
| apps/core/helpers.py:749-760 | the first piece is checked with startswith, and the middle search and the endswith check then start from the beginning of the subject, not after the first piece | glob('ab*ba', 'aba') is True | the first piece is cut off the subject before the middle pieces and the last piece are checked | not executed | Glob.GlobAcceptsOverlap | Glob.FixedIsExact |

`Glob.Glob` models the code as written. `Glob.GlobCorrected` is the corrected loop. It
computes `Glob.GlobFixed`, which `Glob.FixedIsExact` proves equal to the meaning of the
pattern. `Glob.AsWrittenComplete` shows that the code as written still accepts every
subject that matches.

## Left out

- The ORM query (`model_class.objects.filter(**query).order_by('updated_at').first()` and
  `.exists()`): its result is a parameter.
- `process_object`: only its field writes and how it ends are modelled, not what it
  computes.
- A callback that raises after writing some fields: the model applies all of its writes
  before it ends.
- The value of `updated_at`: the clock is not modelled. Only the field name is listed in
  the save.
- `handle_exception`: it is recorded as an effect, and is taken to return. A
  `handle_exception` that raises (the base class's version always does, with
  NotImplementedError) skips the counter's deletion at `apps/core/tasks.py:211`, which is
  not in a `finally`, and leaves the counter with its time to live; that path is not
  modelled.
- The `task_prerun` hook (`apps/core/tasks.py:32-35`) clears the per-request data before
  every task runs; clearing it is not modelled, so `currentInstance` keeps its value across
  calls.
- Logging, Celery's `apply_async` (reduced to a returned `Submission`), `Cached` instance
  lookup (reduced to a set of existing pks) and `set_current_instance` (reduced to the
  task's `currentInstance` field).
- `TaskLockMixin`: the acquisition of the task lock and the value of `lock_expire` are not
  part of this model. `lock_expire` is a field of `Config`, and the lock key is modelled
  only as a key.
- Store.KeyValueStore.Expire: requires a positive timeout. Redis deletes the key on
  EXPIRE with 0 or less; `lock_expire` is a lock time to live, so `ObjectProcessor.Config`
  requires it to be positive.
- ObjectProcessor.RunSpec: an exception that is not an `Exception` (a `BaseException` such
  as SystemExit) escaping `process_object` or the save is not modelled. Such a run leaves
  the counter incremented with its time to live, calls no handler and sets no countdown.
- ObjectProcessor.Changes: `whats_changed()` comes from a model mixin that is not part of
  this model. It is taken to report the fields whose in-memory value differs from the
  saved row.
- Time in the key-value store: keys never expire on their own. Redis INCR on a non-integer
  value and 64-bit overflow are not modelled.
- Base62.BaseEncode: `int(integer / length)` goes through a float in Python, which loses
  precision above 2^53. The model divides exactly.
- Base62.BaseDecode: `base_decode` with a custom `reverse_base` argument is not modelled.
  Only BASE_DICT is.
- KeyParity.GenerateKey: the UUID and the HMAC-SHA1 digest are not computed. The digest is
  an input, required to be 40 lower-case hex digits.
- Sanitize.SanitizeText: `smart_text` decoding of bytes is not modelled. The input is
  already a text, or None.
- Lookups.Upper: Python's `str.upper()` also maps non-ASCII letters (and 'ß' to "SS");
  the model upper-cases only the ASCII letters. Strings are sequences of code points.
- KeyParity.HexValue: Python's `int(c, 16)` also accepts the other Unicode decimal
  digits (Arabic-Indic digits, for example), so `check_parity` answers for a key ending
  in one of them where the model reports the ValueError.
- FormatError.Format: Python's `str()` of a nested list or dict is a parameter.
- Revalidate.RevalidateIntegrityError: `transaction.atomic` and `router.db_for_write` are
  not modelled.
- ReentrantLocks: the Redis lock's blocking, timeouts, token values and thread identity
  are not modelled. A token is a flag on the lock object, and the owner of a name's
  Redis lock is ghost state of the registry. The per-thread registry is one object per
  thread.
- `get_cur_loc_env` reads `settings.LOCATION`. It is `GetLocEnv` with that location, and
  has no member of its own.
