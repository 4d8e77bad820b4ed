# EnglishAI Chat — a verified model of its core

EnglishAI Chat is an English-learning web application. Its Express/Mongoose
backend registers and signs in users: by password, by Google or LinkedIn
OAuth, or as a guest. It also runs the forgot-password and reset-password
flow and records each user's progress on vocabulary words. Its React frontend
has these parts:

- the sign-in and registration forms and the forgot-password dialog;
- a grammar correction tool, with highlighting, one-click correction, undo
  and a word-by-word comparison view;
- an AI chat that flags two grammar mistakes in what the learner types and
  collects thumbs-up/thumbs-down feedback;
- the vocabulary hub, with flashcards, a timed quiz and a daily word
  challenge;
- the learning-preferences panel of the profile page.

This project models that core in Dafny and proves properties of the model.
The model takes the source's own form, as follows.

Backend:

- The user collection is the class `UserModel.UserStore`. It holds a
  sequence of records whose index is the record's id. `findOne` returns the
  first record that matches, and `save` enforces the unique email index.
- Each route handler is a method on that store. It is proved equal to a
  pure specification function, which returns the HTTP response together
  with the new collection. The properties the code promises are lemmas
  about these specification functions.
- Progress records live in the class `Progress.ProgressStore`.

Frontend:

- A component whose handlers update its state step by step is a class with
  one method per handler. These are the forms, the reset dialog, the
  grammar tool, the chat page, the quiz, the flashcards and the daily
  challenge.
- The feedback dialog and the preferences panel only compute a new state
  from the old one, so they are pure functions.

Shared pieces:

- The JavaScript built-ins the code relies on are defined once in `Js`.
  These are `length` in UTF-16 code units, `trim`, `substring`,
  `indexOf`, `split`, splitting on white space, `String(n)`, `padStart`
  and `Math.round` of a percentage.
- The `/\S+@\S+\.\S+/` test is defined once in `EmailPattern`.
- Toggling an entry in a list is defined once in `ListToggle`.
- Counting correct answers and the rounded score are defined once in
  `Scoring`.

Passwords are hashed by an uninterpreted, injective `Hashed` constructor. A
JSON web token is a value that records the user id, the key and the `'7d'`
lifetime. The clock, random tokens, the mail transport's outcome and the
random choice of AI reply are parameters of the operations that use them.

## Model

| member | source | states |
|---|---|---|
| UserModel.NewUser | backend/models/User.js:13-24 | a new record has exactly the given name, email and password, streak 0, daily goal 20 and completed-today 0; it is not a guest, not verified and not linked |
| UserModel.FindByEmail | backend/controllers/authController.js:34 | returns an id whose record has that email, and returns none exactly when no record has it |
| UserModel.FindByEmailUnique | backend/models/User.js:4-8 | in a well-formed collection, looking up a record's own email finds that record |
| UserModel.SaveNew | backend/models/User.js:4-8 | saving a new record fails on an empty or duplicate email; otherwise it appends the record and keeps emails present and unique |
| UserModel.SaveAt | backend/models/User.js:4-8 | saving a record in place fails only on an empty email or one held by another record; otherwise it replaces only that record and keeps the collection well formed |
| UserModel.SaveAtSameEmail | backend/controllers/authController.js:155-156 | re-saving a record under its own email always succeeds |
| UserModel.UserStore.FindOne | backend/controllers/authController.js:34 | the store's lookup returns the first record satisfying the query |
| UserModel.UserStore.Insert | backend/controllers/authController.js:43-51 | inserting appends the record and returns its new id, or leaves the store unchanged and reports the validation error |
| UserModel.UserStore.Save | backend/controllers/authController.js:340-343 | saving replaces the record, or leaves the store unchanged and reports the validation error |
| Store.FindFirst | backend/controllers/authController.js:327-330 | the result is the lowest index satisfying the query, or none exactly when nothing satisfies it |
| Store.FindFirstAppendRejected | backend/controllers/authController.js:207-214 | appending a record the query rejects does not change the query's answer |
| Store.FindFirstReplaceMatch | backend/config/passport.js:30-37 | updating the first match with a value that still matches keeps it the first match |
| Store.FindFirstReplaceNoMatch | backend/config/passport.js:40-50 | when nothing matched, a replaced record that now matches becomes the answer |
| Store.FindFirstAppendMatch | backend/config/passport.js:53-63 | when nothing matched, an appended matching record becomes the answer |
| Mailer.SendEmail | backend/utils/emailService.js:40-47 | an unconfigured transport yields message id 'skipped', a delivery carries its message id, and a transport error yields id 'failed' with the error text |
| Mailer.AwaitSendEmail | backend/utils/emailService.js:43-47 | sending mail never throws; it always returns the mail result |
| AuthController.SigningKey | backend/controllers/authController.js:8 | the signing key is the configured secret when one is set and is never empty |
| AuthController.TokenRoundTrip | backend/controllers/authController.js:7-11 | a token verified with the signing key yields the user id it was issued for, and it expires in '7d' |
| AuthController.Register | backend/controllers/authController.js:14-121 | the handler's response and new collection are those of the registration specification, and it keeps the store well formed |
| AuthController.RegisterGuards | backend/controllers/authController.js:19-40 | a missing field, a password under 6 UTF-16 code units (the unit of `.length`) and an email already taken are each refused with 400 and its own message, and the collection is left unchanged; nothing is stored unless the status is 201 |
| AuthController.RegisterSucceeds | backend/controllers/authController.js:43-112 | with valid fields and a fresh email, the answer is 201 and the record is appended; the token names the new id, the verification status is classified from the mail result, and the account view shows the new user unverified |
| AuthController.EmailStatusClassification | backend/controllers/authController.js:54-95 | the status is 'skipped' exactly when mail is not configured or reports 'skipped'; it is 'failed' exactly on an error with a non-empty message; otherwise it is 'sent' |
| AuthController.Login | backend/controllers/authController.js:124-181 | the handler's response and new collection are those of the login specification |
| AuthController.LoginFailuresAlike | backend/controllers/authController.js:137-152 | an unknown email and a wrong password get the same 401 'Invalid email or password' answer and change nothing |
| AuthController.LoginSucceeds | backend/controllers/authController.js:154-172 | the right password answers 200 with a token for that user and updates only that user's last login |
| AuthController.RegisterThenLogin | backend/controllers/authController.js:43-172 | an account that registration has just created can log in at once with the same email and password: 200, a token for the new id, and only its last login changes |
| AuthController.PasswordlessCannotLogin | backend/controllers/authController.js:129-152 | an account without a password (OAuth or guest) can never sign in with a password |
| AuthController.SocialAuthSuccess | backend/controllers/authController.js:184-201 | the handler's redirect and new collection are those of the social-sign-in specification |
| AuthController.SocialAuthSucceeds | backend/controllers/authController.js:188-196 | after OAuth the user's last login is updated and the browser is sent to `/auth-success` with a token for that user |
| AuthController.GuestAccess | backend/controllers/authController.js:204-239 | the handler's response and new collection are those of the guest specification |
| AuthController.GuestEmailsDistinct | backend/controllers/authController.js:208-209 | guest emails made at different times differ |
| AuthController.GuestAccessOutcomes | backend/controllers/authController.js:207-236 | a guest record (verified, guest, no password) is appended and a token for it is returned, unless its email already exists, when the answer is 500 and nothing changes |
| AuthController.GuestCannotLogin | backend/controllers/authController.js:207-212 | the guest account just created cannot sign in by password |
| AuthController.ForgotPassword | backend/controllers/authController.js:242-298 | the handler's response and new collection are those of the forgot-password specification |
| AuthController.ForgotPasswordOutcomes | backend/controllers/authController.js:246-289 | a missing email gets 400 and an unknown email 404, both changing nothing; a known email stores the reset token and expiry on that record and answers 200; the 'failed to send' answer never occurs |
| AuthController.ResetPassword | backend/controllers/authController.js:301-357 | the handler's response and new collection are those of the reset specification |
| AuthController.ResetPasswordGuards | backend/controllers/authController.js:305-324 | missing fields, mismatched passwords and a password under 6 UTF-16 code units are each refused with 400 and change nothing; a successful reset returns no token and no user |
| AuthController.ResetTokenNotReplayable | backend/controllers/authController.js:327-343 | a successful reset updates only the token holder, whose token and expiry are cleared, so a second use of the same token is refused with 400 |
| AuthController.SecondResetRequestInvalidatesFirst | backend/controllers/authController.js:262-343 | a second forgot-password request for the same account overwrites the first token, so a reset with the first token is then refused with 400 and changes nothing |
| AuthController.LoginAfterReset | backend/controllers/authController.js:340-343 | after a reset the new password signs in and the old one is refused |
| AuthController.GetCurrentUser | backend/controllers/authController.js:360-390 | the handler answers as the current-user specification and changes nothing |
| AuthController.CurrentUserDescribesRecord | backend/controllers/authController.js:362-381 | the answer is 200 exactly for a stored id, and then shows that record's id, email and guest flag; otherwise it is 404 'User not found' |
| Passport.EnabledStrategies | backend/config/passport.js:22 | a provider is enabled exactly when both its client id and its secret are set (the LinkedIn condition is at line 75) |
| Passport.PhotoOr | backend/config/passport.js:45 | the first photo is used when it is present and non-empty, otherwise the fallback |
| Passport.GoogleVerify | backend/config/passport.js:27-69 | the callback's result and new collection are those of the Google specification |
| Passport.GoogleKnownId | backend/config/passport.js:30-37 | a known Google id resolves to that user and only updates the last login |
| Passport.GoogleLinksByEmail | backend/config/passport.js:40-50 | an unknown Google id whose email is registered links to that record: it sets the Google id, marks the email verified, keeps the password and takes the photo when there is one |
| Passport.GoogleCreates | backend/config/passport.js:53-63 | an unknown id and email create a verified, passwordless account named after the profile |
| Passport.GoogleNeedsEmail | backend/config/passport.js:40 | a new Google profile without any email fails and changes nothing |
| Passport.GoogleIdempotent | backend/config/passport.js:27-69 | signing in again with the same profile resolves to the same user through the known-id branch |
| Passport.LinkedInVerify | backend/config/passport.js:81-126 | the callback's result and new collection are those of the LinkedIn specification |
| Passport.LinkedInLinksByEmail | backend/config/passport.js:94-106 | an unknown LinkedIn id whose email is registered links to that record: it sets the LinkedIn id, marks the email verified, keeps the password and takes the photo when there is one; nothing else changes |
| Passport.LinkedInCreates | backend/config/passport.js:94-120 | a new LinkedIn profile appends exactly one account and changes nothing else; its email is the profile's, or `linkedin_<id>@temp.com` when there is none; it is verified exactly when the profile had an email |
| Passport.LinkedInPlaceholderTaken | backend/config/passport.js:109-124 | an email-less profile whose placeholder address is already taken fails and changes nothing |
| Passport.LinkedInIdempotent | backend/config/passport.js:84-91 | signing in again with the same profile resolves to the same user through the known-id branch |
| UserWordModel.ParseStatus | backend/models/UserWord.js:14-17 | only 'learned' and 'review' are valid statuses |
| UserWordModel.NewUserWord | backend/models/UserWord.js:9-22 | a record without a word fails the `required` validator; otherwise it defaults to 'review' and is stamped now, and an invalid status fails validation |
| UserWordModel.SetStatus | backend/routes/progress.js:12-14 | an update keeps the user and word, stamps now, and succeeds exactly for a valid or missing status |
| Progress.ProgressStore.Upsert | backend/routes/progress.js:7-28 | the route's response and new records are those of the upsert specification |
| Progress.UpsertUpdatesExisting | backend/routes/progress.js:10-14 | an existing record for the pair is updated in place with the new status and time, and that record is returned |
| Progress.UpsertInsertsNew | backend/routes/progress.js:15-23 | without a record for the pair, a new one is appended, with 'review' when no status is given, and returned |
| Progress.UpsertRejectsInvalidStatus | backend/routes/progress.js:24-27 | an invalid status answers 'Server Error' and stores nothing |
| Progress.UpsertWithoutWordId | backend/routes/progress.js:8-27 | without `wordId` the user's first record, whatever its word, is updated and returned; a user with no record gets 'Server Error' and nothing is stored |
| Progress.UpsertTouchesOnlyItsPair | backend/routes/progress.js:10-22 | records the filter does not select are unchanged, no record changes its user or word, and at most one record is added |
| Progress.UpsertKeepsPairsUnique | backend/routes/progress.js:10-22 | if each user/word pair has at most one record before, it still does after |
| EmailPattern.Unanchored | frontend/src/pages/authentication-login-register/components/RegisterForm.jsx:39 | the test is unanchored: text around an address still passes |
| EmailPattern.AcceptsPlainAddress | frontend/src/pages/authentication-login-register/components/RegisterForm.jsx:39 | any `local@domain.tld` without white space passes |
| EmailPattern.MatchNeedsAtAndDot | frontend/src/pages/authentication-login-register/components/RegisterForm.jsx:39 | anything that passes has an '@' before a '.' and is at least 5 characters long |
| EmailPattern.EmptyIsNotEmail | frontend/src/pages/authentication-login-register/components/RegisterForm.jsx:37-40 | the empty text fails |
| EmailPattern.RefusesMissingDot | frontend/src/pages/authentication-login-register/components/LoginForm.jsx:32 | an address with no dot after the '@' fails |
| RegisterForm.NameError | frontend/src/pages/authentication-login-register/components/RegisterForm.jsx:31-35 | a name is refused exactly when its trimmed length, in UTF-16 code units, is under 2, as 'required' when blank and 'too short' otherwise |
| EmailPattern.EmailError | frontend/src/pages/authentication-login-register/components/RegisterForm.jsx:37-41 | an email is refused exactly when it fails the pattern, as 'required' when empty; the sign-in form writes the same entry |
| RegisterForm.PasswordError | frontend/src/pages/authentication-login-register/components/RegisterForm.jsx:43-47 | a password is refused exactly when shorter than 6 UTF-16 code units, as 'required' when empty |
| RegisterForm.ValidateAccepts | frontend/src/pages/authentication-login-register/components/RegisterForm.jsx:28-51 | the form validates exactly when the trimmed name has 2 or more characters, the email passes the pattern and the password has 6 or more |
| RegisterForm.ValidateShowsEveryError | frontend/src/pages/authentication-login-register/components/RegisterForm.jsx:28-49 | every error the validator records is a visible, non-empty message |
| RegisterForm.RegisterForm.HandleChange | frontend/src/pages/authentication-login-register/components/RegisterForm.jsx:13-26 | typing sets only that field and clears only that field's visible error |
| RegisterForm.RegisterForm.HandleSubmit | frontend/src/pages/authentication-login-register/components/RegisterForm.jsx:53-62 | the errors become the validator's, and the form is submitted with its three values exactly when it validates |
| LoginForm.PasswordError | frontend/src/pages/authentication-login-register/components/LoginForm.jsx:36-38 | a password is refused only when empty; there is no minimum length |
| LoginForm.ValidateAccepts | frontend/src/pages/authentication-login-register/components/LoginForm.jsx:27-42 | the form validates exactly when the email passes the pattern and a password was typed |
| LoginForm.ValidateShowsEveryError | frontend/src/pages/authentication-login-register/components/LoginForm.jsx:27-40 | every error the validator records is a visible message |
| LoginForm.LoginForm.HandleChange | frontend/src/pages/authentication-login-register/components/LoginForm.jsx:12-25 | typing sets only that field and clears only that field's visible error |
| LoginForm.LoginForm.HandleSubmit | frontend/src/pages/authentication-login-register/components/LoginForm.jsx:44-49 | the errors become the validator's, and the credentials are submitted exactly when the form validates |
| ForgotPasswordModal.ForgotPasswordModal.CurrentView | frontend/src/pages/authentication-login-register/components/ForgotPasswordModal.jsx:48 | the confirmation view shows exactly once the request has succeeded |
| ForgotPasswordModal.ForgotPasswordModal.SetEmail | frontend/src/pages/authentication-login-register/components/ForgotPasswordModal.jsx:75 | the email field changes only while the form is shown and not loading |
| ForgotPasswordModal.ForgotPasswordModal.StartSubmit | frontend/src/pages/authentication-login-register/components/ForgotPasswordModal.jsx:11-26 | the request is sent exactly when the email passes the pattern; an empty email and an invalid email each give their own error toast |
| ForgotPasswordModal.ForgotPasswordModal.FinishSubmit | frontend/src/pages/authentication-login-register/components/ForgotPasswordModal.jsx:26-34 | loading ends; success shows the server's message or the default and switches to the confirmation view; failure shows the server's message or the default error |
| GrammarTool.Apply | frontend/src/pages/grammar-correction-tool/index.jsx:88-91 | a correction replaces exactly the error's span with the suggestion |
| GrammarTool.GrammarTool.ApplyCorrection | frontend/src/pages/grammar-correction-tool/index.jsx:88-97 | the text is corrected, pushed onto the undo stack, and the selection cleared |
| GrammarTool.GrammarTool.HandleTextChange | frontend/src/pages/grammar-correction-tool/index.jsx:75-82 | the text is replaced and the old text pushed onto the undo stack only when it changed |
| GrammarTool.GrammarTool.HandleErrorClick | frontend/src/pages/grammar-correction-tool/index.jsx:84-86 | clicking an error selects it and changes nothing else |
| GrammarTool.GrammarTool.HandleUndo | frontend/src/pages/grammar-correction-tool/index.jsx:99-105 | undo restores the last pushed text and pops it; with an empty stack nothing changes |
| GrammarTool.GrammarTool.ApplyThenUndo | frontend/src/pages/grammar-correction-tool/index.jsx:88-105 | a correction followed by undo restores the text and the undo stack |
| GrammarTool.ReplaceEachClean | frontend/src/pages/grammar-correction-tool/index.jsx:107-116 | one-click correction leaves a text without any of the mock errors unchanged |
| GrammarTool.ReplaceEachStep | frontend/src/pages/grammar-correction-tool/index.jsx:109-111 | each mock error replaces its first occurrence in the text, in list order |
| GrammarTool.GrammarTool.HandleOneClickCorrection | frontend/src/pages/grammar-correction-tool/index.jsx:107-116 | the text becomes the one-click replacement of every mock error, and the old text is pushed for undo |
| GrammarTool.Splice | frontend/src/pages/grammar-correction-tool/index.jsx:134-139 | one highlight wraps exactly the error's span in its marked-up span |
| GrammarTool.SortByStartDescSorts | frontend/src/pages/grammar-correction-tool/index.jsx:132 | sorting puts the errors in descending start order and is a permutation of them |
| GrammarTool.InsertKeepsOrder | frontend/src/pages/grammar-correction-tool/index.jsx:132 | inserting into a descending list keeps it descending and adds exactly that error |
| GrammarTool.MockErrorsSorted | frontend/src/pages/grammar-correction-tool/index.jsx:18-49 | the three mock errors sort in reverse order |
| GrammarTool.SpliceAllIsHighlighted | frontend/src/pages/grammar-correction-tool/index.jsx:132-142 | right-to-left splicing of disjoint errors equals the left-to-right reference, so each error is spliced at its original offsets |
| GrammarTool.HighlightUsesOriginalOffsets | frontend/src/pages/grammar-correction-tool/index.jsx:132-142 | splicing the rightmost error first leaves the text before it untouched for the remaining errors |
| GrammarTool.ThreeSplices | frontend/src/pages/grammar-correction-tool/index.jsx:132-142 | three ordered, disjoint errors each wrap their own slice of the original text |
| GrammarTool.MockHighlight | frontend/src/pages/grammar-correction-tool/index.jsx:18-49 | on any text of 129 or more characters, the mock errors wrap the slices 45..52, 78..83 and 120..129 |
| GrammarTool.GrammarTool.RenderHighlightedText | frontend/src/pages/grammar-correction-tool/index.jsx:128-145 | an empty text renders nothing; otherwise the result is the sorted right-to-left splice of the mock errors |
| GrammarTool.WordCountProperties | frontend/src/pages/grammar-correction-tool/index.jsx:256 | the word count is zero exactly for blank text, and a space between two texts adds their counts |
| ComparisonView.GetDifferences | frontend/src/pages/grammar-correction-tool/components/ComparisonView.jsx:7-33 | one entry per position up to the longer word list, each being that position's comparison |
| ComparisonView.DiffAtIndex | frontend/src/pages/grammar-correction-tool/components/ComparisonView.jsx:12-30 | an entry is unchanged exactly when both words exist and are equal, added when past the original's end and removed when past the corrected text's end; it records its own index |
| ComparisonView.IdenticalTextsUnchanged | frontend/src/pages/grammar-correction-tool/components/ComparisonView.jsx:12-30 | comparing a text with itself marks every word unchanged |
| ComparisonView.EmptyTextIsOneWord | frontend/src/pages/grammar-correction-tool/components/ComparisonView.jsx:9-10 | an empty text splits to one empty word, so against a one-word text it is reported as changed, not added |
| Js.Utf16Length | backend/controllers/authController.js:26 | `length` counts UTF-16 code units: at least one and at most two per character, and exactly one each when no character lies beyond U+FFFF |
| Js.EmojiCountTwice | backend/controllers/authController.js:26 | a password of three emoji has `length` 6, so it passes the minimum-length check |
| Js.Trim | frontend/src/pages/ai-chat-interface/components/FeedbackModal.jsx:30 | the result is the slice of the text left after removing the white space at both ends: it neither starts nor ends with white space, and is empty exactly for blank text |
| Js.Substring | frontend/src/pages/grammar-correction-tool/index.jsx:89-91 | `substring` with arguments in range takes that slice and swaps reversed arguments |
| Js.SubstringSplitJoin | frontend/src/pages/grammar-correction-tool/index.jsx:89-91 | the text before and after any cut joins back to the text |
| Js.IndexOf | frontend/src/pages/ai-chat-interface/index.jsx:100 | `indexOf` returns the first occurrence, or -1 exactly when there is none |
| Js.ReplaceFirst | frontend/src/pages/grammar-correction-tool/index.jsx:110 | `replace` with a string rewrites only the first occurrence and leaves text without one unchanged |
| Js.SplitCount | frontend/src/pages/grammar-correction-tool/components/ComparisonView.jsx:9-10 | splitting on a character gives one more piece than its occurrences |
| Js.JoinSplit | frontend/src/pages/grammar-correction-tool/components/ComparisonView.jsx:9-10 | joining the pieces with the separator gives back the text |
| Js.NoWordsIffAllSpace | frontend/src/pages/grammar-correction-tool/index.jsx:256 | splitting on white space and dropping empty pieces yields no word exactly for blank text |
| Js.WordsAroundSpace | frontend/src/pages/grammar-correction-tool/index.jsx:256 | a white-space character between two texts concatenates their words |
| Js.WordsHaveNoSpace | frontend/src/pages/grammar-correction-tool/index.jsx:256 | every word the split-and-filter yields is non-empty and holds no white space |
| Js.NatToString | frontend/src/pages/vocabulary-learning-hub/components/VocabularyQuiz.jsx:160 | the decimal text is non-empty, all digits and without a leading zero |
| Js.ParseNatToString | frontend/src/pages/vocabulary-learning-hub/components/VocabularyQuiz.jsx:157-161 | reading the decimal text back gives the number |
| Js.NatToStringInjective | frontend/src/pages/vocabulary-learning-hub/components/VocabularyQuiz.jsx:157-161 | different numbers have different decimal texts |
| Js.PadStart2 | frontend/src/pages/vocabulary-learning-hub/components/VocabularyQuiz.jsx:160 | padding keeps the text as its suffix, reaches length 2 and fills only with '0' |
| Js.RoundPercent | frontend/src/pages/vocabulary-learning-hub/components/VocabularyQuiz.jsx:151 | the percentage is rounded half up and lies in 0..100, with 100 for all and 0 for none |
| Scoring.CorrectCount | frontend/src/pages/vocabulary-learning-hub/components/VocabularyQuiz.jsx:148-150 | the count is at most the number of questions: full exactly when every answer is right and zero exactly when none is |
| Scoring.CorrectCountIsHits | frontend/src/pages/vocabulary-learning-hub/components/DailyWordChallenge.jsx:85-87 | the count is the number of correctly answered positions |
| Scoring.OneAnswerMovesCountByOne | frontend/src/pages/vocabulary-learning-hub/components/VocabularyQuiz.jsx:172-177 | changing one answer moves the count by at most one |
| Scoring.CountsAgree | frontend/src/pages/vocabulary-learning-hub/components/VocabularyQuiz.jsx:148-150 | answer maps that are right at the same positions give the same count |
| Scoring.Score | frontend/src/pages/vocabulary-learning-hub/components/VocabularyQuiz.jsx:146-155 | the score is the rounded percentage of correct answers, within 0..100 |
| VocabularyQuiz.SelectExactly | frontend/src/pages/vocabulary-learning-hub/components/VocabularyQuiz.jsx:116-123 | the filter keeps exactly the questions it accepts: all of them when it accepts every question, none when it accepts none |
| VocabularyQuiz.SelectKeepsOrder | frontend/src/pages/vocabulary-learning-hub/components/VocabularyQuiz.jsx:116-123 | the filtered list keeps the bank's order: its k-th question is the one at the k-th accepted position, these positions strictly increase, and exactly the accepted positions are used |
| VocabularyQuiz.AllKeepsEveryQuestion | frontend/src/pages/vocabulary-learning-hub/components/VocabularyQuiz.jsx:117 | 'all', and a mixed quiz under any non-level filter, keep the whole bank |
| VocabularyQuiz.FilterSelects | frontend/src/pages/vocabulary-learning-hub/components/VocabularyQuiz.jsx:118-121 | a level filter keeps exactly that level; another filter keeps exactly the chosen quiz type |
| VocabularyQuiz.BeginnerIsEmpty | frontend/src/pages/vocabulary-learning-hub/components/VocabularyQuiz.jsx:118 | the bank has no beginner question, so the beginner filter leaves none |
| VocabularyQuiz.AdvancedLeavesSixthBehind | frontend/src/pages/vocabulary-learning-hub/components/VocabularyQuiz.jsx:116-126 | 'all' keeps eight questions and 'advanced' three, so a quiz on the sixth question has no current question after the filter switches to 'advanced' |
| VocabularyQuiz.Key | frontend/src/pages/vocabulary-learning-hub/components/VocabularyQuiz.jsx:148-150 | the answer key lists each question's correct option |
| VocabularyQuiz.FiveMinutes | frontend/src/pages/vocabulary-learning-hub/components/VocabularyQuiz.jsx:157-161 | the five-minute timer starts as "5:00" |
| VocabularyQuiz.FormatTimeReadsBack | frontend/src/pages/vocabulary-learning-hub/components/VocabularyQuiz.jsx:157-161 | the clock reads minutes, ':' and two digits of seconds that together give back the seconds |
| VocabularyQuiz.PerfectAnswersScoreFull | frontend/src/pages/vocabulary-learning-hub/components/VocabularyQuiz.jsx:146-151 | all answers right score 100 |
| VocabularyQuiz.Quiz.SelectQuizType | frontend/src/pages/vocabulary-learning-hub/components/VocabularyQuiz.jsx:121 | choosing a quiz type before the start changes only the type |
| VocabularyQuiz.Quiz.StartQuiz | frontend/src/pages/vocabulary-learning-hub/components/VocabularyQuiz.jsx:163-170 | starting resets index, answers, results, score and the five-minute timer; there is a current question exactly when the filtered list is non-empty |
| VocabularyQuiz.Quiz.ResetQuiz | frontend/src/pages/vocabulary-learning-hub/components/VocabularyQuiz.jsx:193-200 | reset returns to the start screen with everything cleared |
| VocabularyQuiz.Quiz.AnswerSelect | frontend/src/pages/vocabulary-learning-hub/components/VocabularyQuiz.jsx:172-177 | answering records the option for the current question only |
| VocabularyQuiz.Quiz.Next | frontend/src/pages/vocabulary-learning-hub/components/VocabularyQuiz.jsx:179-185 | next advances, or shows the results on the last question; a current question stays current |
| VocabularyQuiz.Quiz.Previous | frontend/src/pages/vocabulary-learning-hub/components/VocabularyQuiz.jsx:187-191 | previous steps back but not below zero; a current question stays current |
| VocabularyQuiz.Quiz.Tick | frontend/src/pages/vocabulary-learning-hub/components/VocabularyQuiz.jsx:129-143 | each second lowers the timer, and when it reaches zero the results show |
| VocabularyQuiz.Quiz.ReportScore | frontend/src/pages/vocabulary-learning-hub/components/VocabularyQuiz.jsx:146-155 | the reported score is the rounded percentage over the filtered questions, within 0..100 |
| VocabularyQuiz.Quiz.SetFilter | frontend/src/pages/vocabulary-learning-hub/components/VocabularyQuiz.jsx:116-126 | a new filter from the hub re-filters the questions but keeps the index and the answers; a current question remains only when the index is below the new count |
| DailyWordChallenge.Challenge.CurrentView | frontend/src/pages/vocabulary-learning-hub/components/DailyWordChallenge.jsx:135-162 | exactly one view shows: completed, results or the current question |
| DailyWordChallenge.Challenge.AnswerSelect | frontend/src/pages/vocabulary-learning-hub/components/DailyWordChallenge.jsx:92-97 | answering records the option for the current step only |
| DailyWordChallenge.Challenge.Next | frontend/src/pages/vocabulary-learning-hub/components/DailyWordChallenge.jsx:99-105 | next advances, or shows the results after the fifth step |
| DailyWordChallenge.Challenge.Previous | frontend/src/pages/vocabulary-learning-hub/components/DailyWordChallenge.jsx:107-111 | previous steps back but not below zero; a current question stays current |
| DailyWordChallenge.Challenge.ComputeScore | frontend/src/pages/vocabulary-learning-hub/components/DailyWordChallenge.jsx:83-90 | the score is the rounded percentage of correct answers, within 0..100 |
| DailyWordChallenge.ScoreIsTwentyPerCorrect | frontend/src/pages/vocabulary-learning-hub/components/DailyWordChallenge.jsx:81-90 | with five steps, each correct answer is worth exactly 20 points |
| DailyWordChallenge.Challenge.Complete | frontend/src/pages/vocabulary-learning-hub/components/DailyWordChallenge.jsx:113-116 | completing shows the completed view and reports once |
| DailyWordChallenge.Challenge.Reset | frontend/src/pages/vocabulary-learning-hub/components/DailyWordChallenge.jsx:127-133 | reset clears everything and shows the first question |
| Flashcards.SelectExactly | frontend/src/pages/vocabulary-learning-hub/components/FlashcardComponent.jsx:76-84 | the filter keeps exactly the cards it accepts, by level, learned set, review set or category |
| Flashcards.Forward | frontend/src/pages/vocabulary-learning-hub/components/FlashcardComponent.jsx:150-154 | next wraps from the last card to the first and otherwise advances |
| Flashcards.Backward | frontend/src/pages/vocabulary-learning-hub/components/FlashcardComponent.jsx:135-139 | previous wraps from the first card to the last and otherwise steps back |
| Flashcards.ForwardBackwardInverse | frontend/src/pages/vocabulary-learning-hub/components/FlashcardComponent.jsx:131-156 | next and previous undo each other |
| Flashcards.Progress | frontend/src/pages/vocabulary-learning-hub/components/FlashcardComponent.jsx:88-93 | progress is the rounded percentage of learned cards: 0 with none and 100 with all |
| Flashcards.DeckIdsCount | frontend/src/pages/vocabulary-learning-hub/components/FlashcardComponent.jsx:90-92 | the deck's ids are distinct, so its size is the number of cards |
| Flashcards.Flashcards.Flip | frontend/src/pages/vocabulary-learning-hub/components/FlashcardComponent.jsx:96-100 | flipping turns the card unless an animation is running |
| Flashcards.Flashcards.CardAction | frontend/src/pages/vocabulary-learning-hub/components/FlashcardComponent.jsx:103-117 | unless animating, 'learned' adds the card to learned and removes it from review, 'review' adds it to review, and a move ahead is scheduled |
| Flashcards.Flashcards.Navigate | frontend/src/pages/vocabulary-learning-hub/components/FlashcardComponent.jsx:130-148 | unless animating, a move is scheduled with the index and list length seen at the click |
| Flashcards.Flashcards.TimerFires | frontend/src/pages/vocabulary-learning-hub/components/FlashcardComponent.jsx:119-127 | when the timer fires, the index moves by the scheduled move and the card is unflipped |
| Flashcards.Flashcards.ReportProgress | frontend/src/pages/vocabulary-learning-hub/components/FlashcardComponent.jsx:88-94 | each change of the learned set reports the progress percentage |
| Flashcards.Flashcards.SetFilter | frontend/src/pages/vocabulary-learning-hub/components/FlashcardComponent.jsx:76-86 | a new filter from the hub re-filters the deck but keeps the index, the sets and any pending move; a card is shown only when the index is below the new count |
| Flashcards.StaleLengthLeavesNoCard | frontend/src/pages/vocabulary-learning-hub/components/FlashcardComponent.jsx:108-124 | under the review filter, marking the first of two cards learned moves the index past the end of the shrunken list |
| LearningPreferences.LevelChange | frontend/src/pages/user-profile-settings/components/LearningPreferencesSection.jsx:60-62 | choosing a level changes only the level |
| LearningPreferences.DifficultyChange | frontend/src/pages/user-profile-settings/components/LearningPreferencesSection.jsx:82-84 | choosing a difficulty changes only the difficulty |
| LearningPreferences.GoalToggle | frontend/src/pages/user-profile-settings/components/LearningPreferencesSection.jsx:64-71 | toggling a goal flips its membership and keeps every other goal; a new goal is appended |
| LearningPreferences.GoalToggleKeepsOrder | frontend/src/pages/user-profile-settings/components/LearningPreferencesSection.jsx:64-71 | toggling a goal keeps the other goals in their order |
| LearningPreferences.GoalToggleTwice | frontend/src/pages/user-profile-settings/components/LearningPreferencesSection.jsx:64-71 | toggling a goal twice restores the goals |
| LearningPreferences.TopicToggle | frontend/src/pages/user-profile-settings/components/LearningPreferencesSection.jsx:73-80 | toggling a topic flips its membership and keeps every other topic; a new topic is appended |
| LearningPreferences.TopicToggleKeepsOrder | frontend/src/pages/user-profile-settings/components/LearningPreferencesSection.jsx:73-80 | toggling a topic keeps the other topics in their order |
| LearningPreferences.TopicToggleTwice | frontend/src/pages/user-profile-settings/components/LearningPreferencesSection.jsx:73-80 | toggling a topic twice restores the topics |
| ListToggle.Toggle | frontend/src/pages/user-profile-settings/components/LearningPreferencesSection.jsx:65-70 | toggling flips membership of exactly that entry and appends a new one |
| ListToggle.ToggleTwice | frontend/src/pages/ai-chat-interface/components/FeedbackModal.jsx:18-24 | toggling twice restores membership, and restores the list when the entry was absent |
| ListToggle.ToggleKeepsOthersInOrder | frontend/src/pages/ai-chat-interface/components/FeedbackModal.jsx:18-24 | toggling keeps the other entries in their order |
| ListToggle.RemoveAllCounts | frontend/src/pages/ai-chat-interface/components/FeedbackModal.jsx:20 | removing an entry keeps the count of every other entry |
| FeedbackModal.OfferedReasons | frontend/src/pages/ai-chat-interface/components/FeedbackModal.jsx:87-92 | thumbs up offers helpful, accurate and clear; thumbs down offers confusing, incorrect and irrelevant |
| FeedbackModal.OfferedExactly | frontend/src/pages/ai-chat-interface/components/FeedbackModal.jsx:87-92 | a reason is offered exactly when it is listed and fits the rating |
| FeedbackModal.SetRating | frontend/src/pages/ai-chat-interface/components/FeedbackModal.jsx:58 | choosing a rating keeps the comment and the selected reasons |
| FeedbackModal.SetComment | frontend/src/pages/ai-chat-interface/components/FeedbackModal.jsx:118 | typing changes only the comment |
| FeedbackModal.ReasonToggle | frontend/src/pages/ai-chat-interface/components/FeedbackModal.jsx:18-24 | a reason's selection flips and no other changes |
| FeedbackModal.Submit | frontend/src/pages/ai-chat-interface/components/FeedbackModal.jsx:26-33 | nothing is sent without a rating; otherwise the message id, the rating, the trimmed comment and the selected reasons are sent |
| FeedbackModal.StaleReasonSubmitted | frontend/src/pages/ai-chat-interface/components/FeedbackModal.jsx:18-33 | a reason picked under thumbs up is still sent after switching to thumbs down, although it is no longer offered |
| ChatMessage.Replacement | frontend/src/pages/ai-chat-interface/components/ChatMessage.jsx:39 | the wrapped span is as long as the opening tag, the text and the closing tag |
| ChatMessage.Step | frontend/src/pages/ai-chat-interface/components/ChatMessage.jsx:34-43 | each splice grows the running offset by that span's growth |
| ChatMessage.RunExtends | frontend/src/pages/ai-chat-interface/components/ChatMessage.jsx:34-43 | the loop over errors is one step per error, in list order |
| ChatMessage.OffsetIsTotalGrowth | frontend/src/pages/ai-chat-interface/components/ChatMessage.jsx:34-43 | after the loop the offset is the total growth of all spans |
| ChatMessage.InOrderWrapsOriginalSlices | frontend/src/pages/ai-chat-interface/components/ChatMessage.jsx:30-49 | with errors in order and apart, the result is the original text with each error's slice wrapped |
| ChatMessage.EachSpanWrapsItsSlice | frontend/src/pages/ai-chat-interface/components/ChatMessage.jsx:36-39 | with errors in order and apart, each span wraps exactly its error's original slice |
| ChatMessage.RenderMessageContent | frontend/src/pages/ai-chat-interface/components/ChatMessage.jsx:30-49 | without errors the content is plain text; otherwise it is the spliced HTML of the errors in list order |
| ChatMessage.SortByStartPerm | frontend/src/pages/ai-chat-interface/components/ChatMessage.jsx:35 | sorting the errors by start is a permutation |
| ChatMessage.SortByStartInOrder | frontend/src/pages/ai-chat-interface/components/ChatMessage.jsx:35-43 | sorted, disjoint errors are in order |
| ChatMessage.RenderMessageContentSorted | frontend/src/pages/ai-chat-interface/components/ChatMessage.jsx:30-49 | the corrected renderer splices the errors sorted by start |
| ChatMessage.SortedWrapsEverySlice | frontend/src/pages/ai-chat-interface/components/ChatMessage.jsx:30-49 | after sorting, every span wraps its own slice of the original text |
| ChatInterface.DetectGrammarErrors | frontend/src/pages/ai-chat-interface/index.jsx:92-112 | 'I are' then 'good in' are reported, each once at its first occurrence, with their corrections and explanations, and only when present |
| ChatInterface.DetectedCoversPattern | frontend/src/pages/ai-chat-interface/index.jsx:100 | every reported position holds the reported text |
| ChatInterface.PatternsApart | frontend/src/pages/ai-chat-interface/index.jsx:95-110 | an 'I are' and a 'good in' never overlap |
| ChatInterface.DetectedPlacedDisjoint | frontend/src/pages/ai-chat-interface/index.jsx:92-112 | the reported spans are in range and disjoint |
| ChatInterface.DetectedOnOutOfOrderText | frontend/src/pages/ai-chat-interface/index.jsx:92-112 | on "good in I are" the detector lists 'I are' (8..13) before 'good in' (0..7) |
| ChatInterface.DetectedOutOfOrderMisplacesHighlight | frontend/src/pages/ai-chat-interface/index.jsx:92-112 | rendering that list as written wraps ">I are<" in the second span instead of "good in" |
| ChatInterface.SortedRenderingWrapsEachPattern | frontend/src/pages/ai-chat-interface/index.jsx:92-112 | sorted by start, every detected span wraps its own pattern |
| ChatInterface.UserMessageOf | frontend/src/pages/ai-chat-interface/index.jsx:71-77 | a sent message carries the text and the detector's errors, and has no feedback |
| ChatInterface.AiResponse | frontend/src/pages/ai-chat-interface/index.jsx:114-129 | a reply is one of the four canned responses, has audio and no grammar errors |
| ChatInterface.WithFeedback | frontend/src/pages/ai-chat-interface/index.jsx:140-147 | feedback attaches to the messages with that id and leaves the rest unchanged |
| ChatInterface.WithFeedbackLastWins | frontend/src/pages/ai-chat-interface/index.jsx:140-147 | a later feedback on the same message replaces the earlier one |
| ChatInterface.SubmittedFeedbackLands | frontend/src/pages/ai-chat-interface/index.jsx:140-147 | what the feedback dialog submits is stored on the rated message |
| ChatInterface.MockMessagesWith | frontend/src/pages/ai-chat-interface/index.jsx:24-54 | the sample conversation has three messages, the second carrying the 'enjoys' error |
| ChatInterface.HobbiesContentParts | frontend/src/pages/ai-chat-interface/index.jsx:35 | in the second sample message 'enjoys' is at 58..64 and 67..73 holds "ading " |
| ChatInterface.MockErrorAsWrittenMissesWord | frontend/src/pages/ai-chat-interface/index.jsx:42 | the recorded position 67..73 wraps "ading ", not "enjoys" |
| ChatInterface.MockErrorCorrectedWrapsWord | frontend/src/pages/ai-chat-interface/index.jsx:35-44 | the position 58..64 wraps exactly "enjoys" |
| ChatInterface.MockMessages | frontend/src/pages/ai-chat-interface/index.jsx:24-54 | the loaded sample conversation uses the corrected position |
| ChatInterface.Chat.LoadMockMessages | frontend/src/pages/ai-chat-interface/index.jsx:56-58 | on mount the conversation is the sample conversation, with the 'enjoys' error at its corrected position 58..64 |
| ChatInterface.Chat.SetInputText | frontend/src/pages/ai-chat-interface/index.jsx:136-138 | typing or voice input sets only the input text |
| ChatInterface.Chat.QuickAction | frontend/src/pages/ai-chat-interface/index.jsx:273-285 | a quick action puts its canned prompt in the input |
| ChatInterface.Chat.HandleSendMessage | frontend/src/pages/ai-chat-interface/index.jsx:68-83 | blank input sends nothing; otherwise the user message is appended, the input is cleared and typing starts |
| ChatInterface.Chat.ReceiveAiResponse | frontend/src/pages/ai-chat-interface/index.jsx:84-88 | the timed reply is appended and typing stops |
| ChatInterface.Chat.HandleKeyPress | frontend/src/pages/ai-chat-interface/index.jsx:152-157 | Enter without Shift sends the message; any other key changes nothing |
| ChatInterface.Chat.OpenFeedback | frontend/src/pages/ai-chat-interface/index.jsx:203-206 | rating a message opens the dialog for it |
| ChatInterface.Chat.CloseFeedback | frontend/src/pages/ai-chat-interface/index.jsx:298-302 | closing the dialog clears the selection |
| ChatInterface.Chat.HandleFeedback | frontend/src/pages/ai-chat-interface/index.jsx:140-150 | feedback is stored on the message and the dialog closes |

## Left out

- Signing and verifying JSON web tokens, bcrypt hashing and `crypto` random
  bytes are cryptography. A token is a value naming the user, the key and
  the lifetime. A hash is an injective constructor. Reset and verification
  tokens are parameters.
- Sending mail through nodemailer is left out. The transport's outcome is a
  parameter, and the HTML bodies of the messages are not modelled.
- The OAuth handshake, session serialization, the Express routers and
  middleware, the auth middleware that sets `req.userId`, and the server
  start-up are left out. The `auth` middleware file is not part of this
  model.
- Concurrent requests are not modelled: each request runs atomically
  against the store. Mongoose's ObjectIds are the record's index.
- UserModel.SaveAt: does not enforce the schema's `required` password
  either, so re-saving a passwordless record (a guest's or a social
  account's login time, a social link) succeeds, where Mongoose's
  validator would refuse it.
- UserModel.SaveNew: does not enforce the schema's `required` password.
  Registration always supplies one. The OAuth and guest paths create
  passwordless records, which the code expects to succeed.
- Email verification through the stored verification token has no handler
  in the code and is not modelled.
- Timers (`setTimeout`, `setInterval`) are separate steps: `TimerFires`,
  `Tick`, `ReceiveAiResponse`.
- `Date.now()` and `new Date()` are the `now` parameter.
- `Math.random()` becomes the `choice` parameter. The chat's random
  conversation tone is not modelled.
- Speech synthesis, voice input, the clipboard, file export, toasts'
  styling, scrolling and `localStorage` are left out. Icons, layout and
  other rendering detail are left out too.
- Floating point is not modelled. `Math.round(x / n * 100)` is integer
  round-half-up, which agrees with it for these small counts.
- VocabularyQuiz.Quiz: the question screen reads
  `currentQuestion.difficulty` (VocabularyQuiz.jsx line 377), which throws
  when the index is past the filtered list. That happens after a start on
  an empty list (the beginner filter) or after the hub's filter shrinks
  the list under the index. The model does not stop there: such a state
  has `HasQuestion()` false, and the answer and navigation handlers stay
  callable on it, although in the source they are never rendered.
- VocabularyQuiz.Quiz.ReportScore: requires at least one filtered question.
  With the beginner filter the list is empty, and the source computes
  `Math.round(0 / 0 * 100)`, which is NaN.
- GrammarTool.GrammarTool.HandleOneClickCorrection: requires a non-empty
  text, because its button is disabled otherwise (index.jsx line 189).
- The analysis delay in the grammar tool and its mock analysis panel are
  not modelled.
- ComparisonView's rendering is not modelled; only `getDifferences` is.
- The forgot-password handler's "Failed to send reset email" answer is
  unreachable, because `sendEmail` catches every error and returns. The
  model keeps the branch and proves it never happens, although the handler
  keeps a 500 branch for it (authController.js lines 283-289).
- Lengths and positions count Unicode code points, where JavaScript's
  `length`, `indexOf`, `substring` and error offsets count UTF-16 code
  units. The length checks on passwords and names use `Js.Utf16Length`
  and agree with the source. The offsets in the grammar tool and the chat
  (`GrammarTool`, `ChatMessage`, `ChatInterface`, `Js.IndexOf`,
  `Js.Substring`) are in code points, so for text with characters beyond
  U+FFFF (emoji, for instance) they differ from the source's.
- ChatInterface.Chat.LoadMockMessages: loads the sample conversation with
  the 'enjoys' error at 58..64, the corrected position (see Findings), not
  the 67..73 written at index.jsx line 42. The as-written data is
  `MockMessagesWith(EnjoysAsWritten)`, and `MockErrorAsWrittenMissesWord`
  shows what it highlights.
- The `User` record carries every field the controllers and the social
  callbacks read or write. `backend/models/User.js` lines 3-25 declare only
  email, password, streak, dailyGoal and completedToday. The other fields
  (`name`, `avatar`, `isGuest`, `isEmailVerified`, `googleId`,
  `linkedinId`, `lastLogin` and the token fields) are taken as the code
  uses them.
- `comparePassword`, `generateEmailVerificationToken` and
  `generatePasswordResetToken` (authController.js lines 50, 146 and 262)
  are not defined in the User schema shown. They are taken as given:
  `PasswordMatches`, and the `Minted` parameter with its token and expiry.
- AuthController.GuestAccess: the handler reads `Date.now()` twice,
  once for the guest name and once for the email. The model takes both to
  be the same `now`, so the two can never differ by a millisecond.

## Findings

| source | as written | input that shows it | evidently intended | confidence | as-written member | corrected member |
|---|---|---|---|---|---|---|
| frontend/src/pages/ai-chat-interface/index.jsx:92-112 with frontend/src/pages/ai-chat-interface/components/ChatMessage.jsx:35-43 | the detector lists 'I are' before 'good in' whatever their positions, and the renderer splices in list order, shifting later positions by the markup already inserted | the message "good in I are": the second span wraps ">I are<" instead of "good in" | splice the errors in order of their start, so each span wraps its own pattern | not executed | ChatInterface.DetectedOutOfOrderMisplacesHighlight | ChatInterface.SortedRenderingWrapsEachPattern |
| frontend/src/pages/ai-chat-interface/index.jsx:42 | the second sample message records the 'enjoys' error at 67..73 | the sample conversation as loaded: 67..73 is "ading ", while "enjoys" is at 58..64 | the position 58..64 | not executed | ChatInterface.MockErrorAsWrittenMissesWord | ChatInterface.MockMessages |
