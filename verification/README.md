# Three coursework apps, modelled in Dafny

This project models the domain logic of three small Android apps. That logic lives inside activity and screen classes. The model lifts it out into immutable records and pure functions over them, and proves what the apps promise about it.

- **Climbing score (Assignment 1).**
  - `ScoreManager` is the counter of a climb over nine holds. It has tiered points, one fall per climb that costs 3 points with a floor at 0, and a reset.
  - `ClimbActivity` is the screen around the counter. It guards climbs by the score and shows the max-score popup at most once per reset. It also colours the score and saves/restores part of its state across a configuration change.
- **Instrument rental (Assignment 2).**
  - `RentalService` is an account. It can be topped up and charged, and it refuses a charge it cannot cover. It also holds a fixed catalogue of three instruments.
  - `Booking` is the booking screen: a months counter, the total and its balance check, the attribute validator and the chip list.
  - `RentalMain` is the pager screen. It covers the previous/next buttons, the add-balance dialog and the handler that applies a finished booking.
  - `Decimal` models Kotlin's `toIntOrNull` and `Int.toString`.
- **Task manager (Assignment 3).**
  - `Task` holds the task record, its priority enum and the type converters.
  - `TaskForm` is the add/edit form.
  - `TaskList` is the active list, with its complete and delete actions.
  - `TodayTasks` holds today's tasks, bucketed by hour.
  - `CompletedTasks` groups done tasks by completion period, ordered by a sort key through a sorted map.
  - `Statistics` holds the counts and the pie-chart segment lists.

Shared pieces:
- `Basics` holds `Option`, `Result` with the exceptions the code throws, and 32-bit `Int` bounds.
- `Seqs` holds filter and count over sequences with their laws.
- `Text` holds Kotlin's `isWhitespace`/`isBlank`.

Other modelling choices:
- Dates are integer day ordinals, and date-times are a day plus a minute of the day.
- "Now", "today" and the calendar position of today are parameters.
- Kotlin `Int` is an unbounded `int`, except where 32-bit arithmetic matters: the booking total, and the charge and the balance subtraction the main screen applies for a booking (all in their as-written versions), and the completed-groups sort key.

## Model

Source paths are relative to the repository root.

| member | source | states |
|---|---|---|
| ScoreManager.HoldPoints | Assignment1/app/src/main/java/com/luutuanhoang/assignment1/ScoreManager.kt:21-28 | The points for arriving at a hold: 1 on holds 1-3, 2 on holds 4-6, 3 on holds 7-9, nothing outside the wall |
| ScoreManager.PointsUpToClosedForm | Assignment1/app/src/main/java/com/luutuanhoang/assignment1/ScoreManager.kt:21-28 | An unbroken climb to hold h scores h up to hold 3, then 3 + 2(h-3) up to hold 6, then 9 + 3(h-6) |
| ScoreManager.Climb | Assignment1/app/src/main/java/com/luutuanhoang/assignment1/ScoreManager.kt:16-34 | A fallen climber, or one at hold 9, is not moved. Otherwise the climber goes up exactly one hold and gains that hold's tier points. The max-score flag is raised exactly when a real climb reaches 18 points, and is never cleared |
| ScoreManager.Fall | Assignment1/app/src/main/java/com/luutuanhoang/assignment1/ScoreManager.kt:37-45 | On holds 1-8 and not yet fallen: lose 3 points (floored at 0) and become fallen. In every other case nothing changes. The hold and the max-score flag never change |
| ScoreManager.Reset | Assignment1/app/src/main/java/com/luutuanhoang/assignment1/ScoreManager.kt:48-53 | From any state: score 0, hold 0, both flags false |
| ScoreManager.FallIdempotent | Assignment1/app/src/main/java/com/luutuanhoang/assignment1/ScoreManager.kt:39-44 | A second consecutive fall changes nothing |
| ScoreManager.PointsReachMaxOnlyAtLast | Assignment1/app/src/main/java/com/luutuanhoang/assignment1/ScoreManager.kt:12-33 | An unbroken climb never exceeds 18 points and reaches 18 exactly at hold 9 |
| ScoreManager.ClimbFromFresh | Assignment1/app/src/main/java/com/luutuanhoang/assignment1/ScoreManager.kt:16-34 | n climbs from a fresh counter reach hold min(n, 9) with the points of the holds passed, and flag the max score exactly at hold 9 |
| ScoreManager.NineClimbsReachMax | Assignment1/app/src/main/java/com/luutuanhoang/assignment1/ScoreManager.kt:18-33 | Nine climbs give 18 points at hold 9 with the flag set; a tenth climb changes nothing |
| ScoreManager.ReachableIsBounded | Assignment1/app/src/main/java/com/luutuanhoang/assignment1/ScoreManager.kt:5-12 | Every reachable state has a score in 0..18 and a hold in 0..9, and has exactly 18 points when the flag is set |
| ScoreManager.BoundedPreserved | Assignment1/app/src/main/java/com/luutuanhoang/assignment1/ScoreManager.kt:16-53 | Climb, fall and reset keep a non-negative score and a hold in 0..9 |
| ScoreManager.ReachablePreserved | Assignment1/app/src/main/java/com/luutuanhoang/assignment1/ScoreManager.kt:16-53 | Climb, fall and reset keep the exact reachable-state invariant: points of the holds passed, minus 3 (floored) after a fall on holds 1-8, flag set exactly at hold 9 |
| ScoreManager.RunFromFresh | Assignment1/app/src/main/java/com/luutuanhoang/assignment1/ScoreManager.kt:5-53 | Any sequence of operations from a fresh counter ends in a reachable, hence bounded, state |
| ScoreManager.RunPreservesReachable | Assignment1/app/src/main/java/com/luutuanhoang/assignment1/ScoreManager.kt:16-53 | Any sequence of operations keeps a reachable state reachable |
| ScoreManager.ClimbFallClimb | Assignment1/app/src/main/java/com/luutuanhoang/assignment1/ScoreManager.kt:18-44 | Climb, fall, climb from fresh ends at 0 points on hold 1: the second climb is refused |
| ClimbActivity.CheckMaxScore | Assignment1/app/src/main/java/com/luutuanhoang/assignment1/MainActivity.kt:107-113 | The popup shows exactly when the score is 18, the flag is set and no popup was shown yet. Showing it sets the popup flag and changes nothing else |
| ClimbActivity.ClimbTap | Assignment1/app/src/main/java/com/luutuanhoang/assignment1/MainActivity.kt:62-70 | A climb is forwarded to the counter only below 18 points. The popup shows exactly when no popup was shown yet and the forwarded climb reaches 18 points; the popup flag afterwards is the old flag or this tap's popup |
| ClimbActivity.FallTap | Assignment1/app/src/main/java/com/luutuanhoang/assignment1/MainActivity.kt:73-78 | The fall button forwards to the counter and leaves the popup flag alone |
| ClimbActivity.ResetTap | Assignment1/app/src/main/java/com/luutuanhoang/assignment1/MainActivity.kt:81-87 | Reset clears the counter and re-arms the popup |
| ClimbActivity.PopupAtMostOncePerReset | Assignment1/app/src/main/java/com/luutuanhoang/assignment1/MainActivity.kt:107-113 | Between resets the popup appears at most once, never again once shown, and always leaves the flag set |
| ClimbActivity.ClimbsToTopShowPopup | Assignment1/app/src/main/java/com/luutuanhoang/assignment1/MainActivity.kt:62-70 | From a screen that has climbed k < 9 holds since a reset, climbing to the top shows the popup exactly once |
| ClimbActivity.NineClimbTapsShowPopup | Assignment1/app/src/main/java/com/luutuanhoang/assignment1/MainActivity.kt:107-113 | Nine climb taps on a new screen show the popup exactly once and leave the flag set |
| ClimbActivity.ScoreColour | Assignment1/app/src/main/java/com/luutuanhoang/assignment1/MainActivity.kt:90-99 | Blue exactly below 3, green exactly on 3..5, red exactly from 6 |
| ClimbActivity.Save | Assignment1/app/src/main/java/com/luutuanhoang/assignment1/MainActivity.kt:130-135 | The bundle holds the score, the hold and the popup flag |
| ClimbActivity.Restore | Assignment1/app/src/main/java/com/luutuanhoang/assignment1/MainActivity.kt:27-58 | Restoring and saving again gives back the same bundle. The fall and max-score flags come back at their defaults |
| ClimbActivity.SaveRestore | Assignment1/app/src/main/java/com/luutuanhoang/assignment1/MainActivity.kt:52-58 | Save then restore keeps score, hold and popup flag, and clears the fall and max-score flags |
| ClimbActivity.RestoreForgetsFall | Assignment1/app/src/main/java/com/luutuanhoang/assignment1/MainActivity.kt:52-58 | After a configuration change, a climber who fell can climb again, though before it the climb was refused |
| ClimbActivity.BoundedPreserved | Assignment1/app/src/main/java/com/luutuanhoang/assignment1/MainActivity.kt:52-87 | Every tap and every save/restore keeps a non-negative score and a hold in 0..9 |
| Basics.Wrap32 | Assignment2/app/src/main/java/com/luutuanhoang/assignment2/BookingActivity.kt:153 | A 32-bit `Int` result is in range, congruent to the exact result modulo 2^32, and equal to it when it fits |
| RentalService.NewService | Assignment2/app/src/main/java/com/luutuanhoang/assignment2/RentalService.kt:15-28 | A new service has balance 5000 and three items priced 150, 200 and 250 |
| RentalService.AddBalance | Assignment2/app/src/main/java/com/luutuanhoang/assignment2/RentalService.kt:51-53 | The balance grows by the amount; the catalogue is untouched |
| RentalService.DeductBalance | Assignment2/app/src/main/java/com/luutuanhoang/assignment2/RentalService.kt:62-68 | Succeeds exactly when the amount is at most the balance, and then lowers the balance by it. Otherwise fails with "Insufficient balance" and leaves the account as it was |
| RentalService.DeductBalanceAsWritten | Assignment2/app/src/main/java/com/luutuanhoang/assignment2/RentalService.kt:62-68 | The charge as the source computes it accepts exactly the amounts the balance covers, and the new balance is the 32-bit wrap of the difference. Within `Int` range it equals the exact charge |
| RentalService.DeductKeepsNonNegative | Assignment2/app/src/main/java/com/luutuanhoang/assignment2/RentalService.kt:62-65 | A successful charge of a non-negative amount leaves a non-negative balance |
| RentalService.AddDeductInverse | Assignment2/app/src/main/java/com/luutuanhoang/assignment2/RentalService.kt:51-68 | Adding and then charging the same amount restores a non-negative account, and a successful charge is undone by adding the amount back |
| RentalService.UpdateRentalItem | Assignment2/app/src/main/java/com/luutuanhoang/assignment2/RentalService.kt:38-43 | A valid position gets the new attributes and rating, keeping its name, price, description and image; all other items and the balance are unchanged. Any other position is an index error |
| RentalService.ApplyAllNet | Assignment2/app/src/main/java/com/luutuanhoang/assignment2/RentalService.kt:51-68 | Successful interleaved top-ups and charges move the balance by their net sum and never touch the catalogue |
| RentalService.InterleavedMovements | Assignment2/app/src/main/java/com/luutuanhoang/assignment2/RentalService.kt:51-68 | +500, -200, +700, -1500 from a new service all succeed and end at 4500 |
| RentalService.CatalogueSizeFixed | Assignment2/app/src/main/java/com/luutuanhoang/assignment2/RentalService.kt:22-43 | No operation changes the number of items |
| Booking.Open | Assignment2/app/src/main/java/com/luutuanhoang/assignment2/BookingActivity.kt:54-94 | The screen opens at one month with the item's rating and one chip per item attribute, in order |
| Booking.Increment | Assignment2/app/src/main/java/com/luutuanhoang/assignment2/BookingActivity.kt:130-137 | One more month, nothing else changed |
| Booking.Decrement | Assignment2/app/src/main/java/com/luutuanhoang/assignment2/BookingActivity.kt:140-149 | One month fewer while above one; at one month nothing happens. Nothing else changes |
| Booking.SaveEnabledIffNoWarning | Assignment2/app/src/main/java/com/luutuanhoang/assignment2/BookingActivity.kt:182-212 | The save button is enabled exactly when the insufficient-balance warning is not shown, for the exact total and for the 32-bit total alike |
| Booking.IncrementDecrement | Assignment2/app/src/main/java/com/luutuanhoang/assignment2/BookingActivity.kt:130-149 | Increment then decrement restores the months and the total |
| Booking.SetRating | Assignment2/app/src/main/java/com/luutuanhoang/assignment2/BookingActivity.kt:152-169 | The rating bar replaces only the rating |
| Booking.Save | Assignment2/app/src/main/java/com/luutuanhoang/assignment2/BookingActivity.kt:152-169 | Save finishes exactly when the balance covers price times months, with an OK result carrying the attributes, rating and months. It charges exactly that total and leaves a non-negative remainder; otherwise nothing happens |
| Booking.Cancel | Assignment2/app/src/main/java/com/luutuanhoang/assignment2/BookingActivity.kt:172-175 | Cancel hands back a cancelled result |
| Booking.ValidAttributeCharacterisation | Assignment2/app/src/main/java/com/luutuanhoang/assignment2/BookingActivity.kt:274-275 | An attribute is accepted exactly when every character is an ASCII letter, digit or space and some character is not a space |
| Booking.AddAttribute | Assignment2/app/src/main/java/com/luutuanhoang/assignment2/BookingActivity.kt:263-289 | A valid attribute is appended as the last chip; invalid text changes nothing |
| Booking.CloseChip | Assignment2/app/src/main/java/com/luutuanhoang/assignment2/BookingActivity.kt:218-230 | Closing a chip removes the first occurrence of its text and keeps the rest in order (so one occurrence fewer, as a multiset). An absent text changes nothing |
| Booking.AddThenClose | Assignment2/app/src/main/java/com/luutuanhoang/assignment2/BookingActivity.kt:218-230 | Adding a new attribute and closing its chip restores the booking |
| Booking.EditsKeepItemAndBalance | Assignment2/app/src/main/java/com/luutuanhoang/assignment2/BookingActivity.kt:130-149 | No sequence of user edits changes the item or the balance, or drops the months below one |
| Booking.TotalWrapsAsWritten | Assignment2/app/src/main/java/com/luutuanhoang/assignment2/BookingActivity.kt:153-154 | The drum kit for 8,589,935 months costs -2,147,483,546 in 32-bit arithmetic, so on an empty account saving is allowed and no warning is shown, where the exact total disables saving and shows the warning |
| Booking.TotalAsWrittenInRange | Assignment2/app/src/main/java/com/luutuanhoang/assignment2/BookingActivity.kt:183-204 | While the exact total fits an `Int`, the 32-bit total, its warning and its save rule agree with the exact ones |
| RentalMain.Launch | Assignment2/app/src/main/java/com/luutuanhoang/assignment2/MainActivity.kt:121-125 | The screen starts on the first item of a new service |
| RentalMain.Previous | Assignment2/app/src/main/java/com/luutuanhoang/assignment2/MainActivity.kt:100-102 | Moves back one page unless on the first, keeps the position valid and the service unchanged |
| RentalMain.Next | Assignment2/app/src/main/java/com/luutuanhoang/assignment2/MainActivity.kt:104-106 | Moves forward one page unless on the last, keeps the position valid and the service unchanged |
| RentalMain.NavigationButtons | Assignment2/app/src/main/java/com/luutuanhoang/assignment2/MainActivity.kt:100-125 | A button is enabled exactly when pressing it moves the pager, and previous and next undo each other |
| RentalMain.LaunchButtons | Assignment2/app/src/main/java/com/luutuanhoang/assignment2/MainActivity.kt:121-125 | On the first of the three items only next is enabled; on the last only previous |
| RentalMain.AddBalanceText | Assignment2/app/src/main/java/com/luutuanhoang/assignment2/MainActivity.kt:160-165 | Text that parses as an `Int` adds its value; any other text changes nothing |
| RentalMain.AddBalanceExamples | Assignment2/app/src/main/java/com/luutuanhoang/assignment2/MainActivity.kt:162-163 | "100" adds one hundred; "abc" adds nothing |
| RentalMain.Borrow | Assignment2/app/src/main/java/com/luutuanhoang/assignment2/MainActivity.kt:109-117 | The booking screen opens on the current item with the account balance |
| RentalMain.Settle | Assignment2/app/src/main/java/com/luutuanhoang/assignment2/MainActivity.kt:49-55 | A failed charge ("Insufficient balance") fails the callback. After a successful charge the balance is the charged one; with attributes only the current item takes them and the returned rating (its own when missing), and nothing else changes |
| RentalMain.ApplyResult | Assignment2/app/src/main/java/com/luutuanhoang/assignment2/MainActivity.kt:38-75 | An OK result charges price times months (one when missing), failing exactly when the balance cannot cover it. With attributes it replaces the current item's attributes and rating only. A cancelled result changes nothing |
| RentalMain.ApplyResultAsWritten | Assignment2/app/src/main/java/com/luutuanhoang/assignment2/MainActivity.kt:45-55 | The callback as written charges the 32-bit product and succeeds exactly when the balance covers that wrapped charge. The new balance is the 32-bit wrap of the difference, and the items change as in the exact callback |
| RentalMain.ChargeWrapsAsWritten | Assignment2/app/src/main/java/com/luutuanhoang/assignment2/MainActivity.kt:49 | A drum-kit booking of 8,589,935 months passes the booking screen's 32-bit check, and the callback as written accepts the wrapped charge of -2,147,483,546 where the exact charge is refused. An empty account becomes 2,147,483,546, and the launch balance of 5000 wraps to -2,147,478,750 |
| RentalMain.ApplyResultAsWrittenInRange | Assignment2/app/src/main/java/com/luutuanhoang/assignment2/MainActivity.kt:45-49 | While the exact charge and the balance it leaves both fit an `Int`, the callback as written and the exact one agree |
| RentalMain.BookingRoundTrip | Assignment2/app/src/main/java/com/luutuanhoang/assignment2/MainActivity.kt:45-55 | Borrow, any edits, save: the handler never throws. It charges exactly the booked total (the same remainder the booking computed) and gives only the current item the booked attributes and rating |
| RentalMain.BookingRoundTripAsWritten | Assignment2/app/src/main/java/com/luutuanhoang/assignment2/MainActivity.kt:45-55 | As the source computes it, whenever the booking screen's 32-bit check enables saving, the callback's deduction never throws: the balance drops by the 32-bit total in 32-bit arithmetic, and only the current item takes the booked attributes and rating |
| RentalMain.CancelChangesNothing | Assignment2/app/src/main/java/com/luutuanhoang/assignment2/MainActivity.kt:67-74 | A cancelled booking leaves balance and catalogue unchanged |
| Decimal.ParseInt | Assignment2/app/src/main/java/com/luutuanhoang/assignment2/MainActivity.kt:162 | `toIntOrNull`: a value exactly for an optional sign followed by at least one digit whose value fits an `Int`, and that value |
| Decimal.NatToString | Assignment3/app/src/main/java/com/luutuanhoang/assignment3/ui/screens/CompletedTasksScreen.kt:51 | A natural number prints as a non-empty digit string without a leading zero |
| Decimal.IntToString | Assignment3/app/src/main/java/com/luutuanhoang/assignment3/ui/screens/CompletedTasksScreen.kt:51 | A number prints as digits, with a leading '-' exactly when negative |
| Decimal.NatToStringValue | Assignment3/app/src/main/java/com/luutuanhoang/assignment3/ui/screens/CompletedTasksScreen.kt:51 | The printed digits denote the number |
| Decimal.IntToStringRoundTrip | Assignment3/app/src/main/java/com/luutuanhoang/assignment3/ui/screens/CompletedTasksScreen.kt:51-60 | Parsing a printed `Int` gives it back |
| Decimal.LetterTextDoesNotParse | Assignment3/app/src/main/java/com/luutuanhoang/assignment3/ui/screens/CompletedTasksScreen.kt:60 | Text starting with a letter is not a number |
| Task.DisplayName | Assignment3/app/src/main/java/com/luutuanhoang/assignment3/data/Task.kt:12-16 | LOW shows as "Low", MEDIUM as "Medium", HIGH as "High" |
| Task.NewTask | Assignment3/app/src/main/java/com/luutuanhoang/assignment3/data/Task.kt:43-52 | Defaults: id 0, MEDIUM, no due date, not completed, no completion date |
| Task.PriorityToString | Assignment3/app/src/main/java/com/luutuanhoang/assignment3/data/Task.kt:35-38 | Null to null; a priority to its constant name |
| Task.FromPriorityString | Assignment3/app/src/main/java/com/luutuanhoang/assignment3/data/Task.kt:30-33 | Null to null. A name is an error exactly when it is not LOW, MEDIUM or HIGH, and otherwise the priority of that name |
| Task.PriorityRoundTrip | Assignment3/app/src/main/java/com/luutuanhoang/assignment3/data/Task.kt:30-38 | Storing and reading back any priority, or null, gives it back |
| Task.PriorityNameRoundTrip | Assignment3/app/src/main/java/com/luutuanhoang/assignment3/data/Task.kt:30-38 | Reading and storing again a valid name, or null, gives it back |
| Task.TimestampToString | Assignment3/app/src/main/java/com/luutuanhoang/assignment3/data/Task.kt:25-28 | Null to null; a date-time to its formatted text |
| Task.FromTimestamp | Assignment3/app/src/main/java/com/luutuanhoang/assignment3/data/Task.kt:19-23 | Null to null; text to its parsed date-time, failing exactly when the parse fails |
| Task.TimestampRoundTrip | Assignment3/app/src/main/java/com/luutuanhoang/assignment3/data/Task.kt:19-28 | When the library parse reads back what its format writes, storing a date-time (or null) and reading it back gives it back |
| Task.Complete | Assignment3/app/src/main/java/com/luutuanhoang/assignment3/ui/screens/TaskListScreen.kt:123-126 | A completed copy stamped with now, keeping id, title, description, priority and due date |
| TaskForm.NewForm | Assignment3/app/src/main/java/com/luutuanhoang/assignment3/ui/screens/AddEditTaskScreen.kt:33-49 | A new form holds an empty MEDIUM task with no due date, not completed and with no completion date, is not editing and shows no errors |
| TaskForm.CheckTitle | Assignment3/app/src/main/java/com/luutuanhoang/assignment3/ui/screens/AddEditTaskScreen.kt:69-73 | Blank titles get "cannot be empty", other titles under 3 characters "at least 3 characters", all others no error |
| TaskForm.CheckDescription | Assignment3/app/src/main/java/com/luutuanhoang/assignment3/ui/screens/AddEditTaskScreen.kt:75-78 | An error exactly above 500 characters |
| TaskForm.CheckDueDate | Assignment3/app/src/main/java/com/luutuanhoang/assignment3/ui/screens/AddEditTaskScreen.kt:80-85 | An error exactly for an open task due strictly before now; never for a done task |
| TaskForm.Validate | Assignment3/app/src/main/java/com/luutuanhoang/assignment3/ui/screens/AddEditTaskScreen.kt:68-86 | Recomputes all three errors from the task and changes nothing else |
| TaskForm.ValidatedFormValid | Assignment3/app/src/main/java/com/luutuanhoang/assignment3/ui/screens/AddEditTaskScreen.kt:51-86 | After validation the form is valid exactly for a non-blank title of at least 3 characters, a description of at most 500, and no open task due in the past |
| TaskForm.ValidateIdempotent | Assignment3/app/src/main/java/com/luutuanhoang/assignment3/ui/screens/AddEditTaskScreen.kt:68-86 | Validating twice is validating once |
| TaskForm.LoadForEdit | Assignment3/app/src/main/java/com/luutuanhoang/assignment3/ui/screens/AddEditTaskScreen.kt:58-65 | The form switches to editing the found task exactly when the id is not -1 and the lookup found one; otherwise it is untouched |
| TaskForm.EditTitle | Assignment3/app/src/main/java/com/luutuanhoang/assignment3/ui/screens/AddEditTaskScreen.kt:109-112 | Sets the title. Re-validates everything while a title error shows; otherwise no error changes |
| TaskForm.EditDescription | Assignment3/app/src/main/java/com/luutuanhoang/assignment3/ui/screens/AddEditTaskScreen.kt:123-126 | Sets the description. Re-validates everything while a description error shows; otherwise no error changes |
| TaskForm.SetPriority | Assignment3/app/src/main/java/com/luutuanhoang/assignment3/ui/screens/AddEditTaskScreen.kt:160-163 | Sets the priority, never re-validating |
| TaskForm.SetDueDate | Assignment3/app/src/main/java/com/luutuanhoang/assignment3/ui/screens/AddEditTaskScreen.kt:296-297 | Sets the due date. Re-validates everything while a due-date error shows; otherwise no error changes |
| TaskForm.SaveForm | Assignment3/app/src/main/java/com/luutuanhoang/assignment3/ui/screens/AddEditTaskScreen.kt:199-212 | Validates, then issues a command exactly when the validated form is valid: an update when editing, an insert otherwise |
| TaskForm.SaveTap | Assignment3/app/src/main/java/com/luutuanhoang/assignment3/ui/screens/AddEditTaskScreen.kt:199-214 | A tap on the disabled button (form not valid) does nothing; an enabled one validates and saves, and a command needs the form valid both before and after validation |
| TaskForm.EditsDoNotChangeSave | Assignment3/app/src/main/java/com/luutuanhoang/assignment3/ui/screens/AddEditTaskScreen.kt:109-126 | Whether or not an edit re-validates, saving afterwards issues the same command as saving the plainly edited task |
| TaskForm.LoadThenSaveUpdates | Assignment3/app/src/main/java/com/luutuanhoang/assignment3/ui/screens/AddEditTaskScreen.kt:58-65 | A form loaded for editing saves as an update of the loaded task once that task passes validation |
| TaskForm.StaleErrorsDisableSave | Assignment3/app/src/main/java/com/luutuanhoang/assignment3/ui/screens/AddEditTaskScreen.kt:51-65 | Loading a task into a form showing a title error keeps the error, so the save button stays disabled |
| TaskForm.SavedTaskIsWellFormed | Assignment3/app/src/main/java/com/luutuanhoang/assignment3/ui/screens/AddEditTaskScreen.kt:199-212 | Every saved task has a non-blank title of at least 3 characters and a description of at most 500 |
| TaskForm.ShortTitleEnablesButOnlyRevalidates | Assignment3/app/src/main/java/com/luutuanhoang/assignment3/ui/screens/AddEditTaskScreen.kt:51-56 | Before any validation a two-letter title enables the save button, but tapping it persists nothing and shows the short-title error |
| TaskList.ActiveTasks | Assignment3/app/src/main/java/com/luutuanhoang/assignment3/ui/screens/TaskListScreen.kt:45 | The shown list holds exactly the tasks not done, in stored order |
| TaskList.EmptyStateIffAllDone | Assignment3/app/src/main/java/com/luutuanhoang/assignment3/ui/screens/TaskListScreen.kt:71 | The empty state shows exactly when every task is done |
| TaskList.ActiveTasksIdempotent | Assignment3/app/src/main/java/com/luutuanhoang/assignment3/ui/screens/TaskListScreen.kt:45 | Filtering the active list again changes nothing |
| TaskList.CompleteAction | Assignment3/app/src/main/java/com/luutuanhoang/assignment3/ui/screens/TaskListScreen.kt:119-129 | The check box issues an update with the task completed at now, every other field as it was |
| TaskList.DeleteAction | Assignment3/app/src/main/java/com/luutuanhoang/assignment3/ui/screens/TaskListScreen.kt:130-136 | The delete icon passes the task unchanged to delete |
| TaskList.ReplaceById | Assignment3/app/src/main/java/com/luutuanhoang/assignment3/data/TaskDao.kt:18-19 | An update replaces the stored tasks with the same id and keeps every other one |
| TaskList.Perform | Assignment3/app/src/main/java/com/luutuanhoang/assignment3/data/TaskDao.kt:15-22 | An insert appends, an update keeps the store size, and after a delete no task with that id is left |
| TaskList.CompleteLeavesActiveList | Assignment3/app/src/main/java/com/luutuanhoang/assignment3/ui/screens/TaskListScreen.kt:119-129 | With distinct ids, completing an active task removes exactly it from the active list and keeps the rest in order |
| TaskList.DeleteLeavesActiveList | Assignment3/app/src/main/java/com/luutuanhoang/assignment3/ui/screens/TaskListScreen.kt:130-136 | Deleting a task removes the active tasks with its id and keeps the rest in order |
| TodayTasks.TodayTasks | Assignment3/app/src/main/java/com/luutuanhoang/assignment3/ui/screens/TodayTasksScreen.kt:59-63 | Exactly the open tasks due on today (none without a due date), in stored order |
| TodayTasks.TodayTasksAreActiveDueToday | Assignment3/app/src/main/java/com/luutuanhoang/assignment3/ui/screens/TodayTasksScreen.kt:59-63 | Today's list is the active list narrowed to the tasks due today |
| TodayTasks.ExactlyOneBucket | Assignment3/app/src/main/java/com/luutuanhoang/assignment3/ui/screens/TodayTasksScreen.kt:66-71 | Every task is in exactly one of morning (5-11), evening (12-17) and night (18-23 or 0-4) |
| TodayTasks.BucketsPartition | Assignment3/app/src/main/java/com/luutuanhoang/assignment3/ui/screens/TodayTasksScreen.kt:66-71 | The buckets together hold each of today's tasks as often as the list does, and each keeps its order |
| TodayTasks.Groups | Assignment3/app/src/main/java/com/luutuanhoang/assignment3/ui/screens/TodayTasksScreen.kt:73-77 | At most three groups, none empty |
| TodayTasks.GroupsInOrder | Assignment3/app/src/main/java/com/luutuanhoang/assignment3/ui/screens/TodayTasksScreen.kt:73-77 | Groups are morning, evening, night in that order, each under its label, with the empty ones left out |
| TodayTasks.CompleteLeavesTodayList | Assignment3/app/src/main/java/com/luutuanhoang/assignment3/ui/screens/TodayTasksScreen.kt:155-165 | With distinct ids, completing one of today's tasks removes exactly it from today's list |
| CompletedTasks.CompletedTasks | Assignment3/app/src/main/java/com/luutuanhoang/assignment3/ui/screens/CompletedTasksScreen.kt:32 | Exactly the done tasks, in stored order |
| CompletedTasks.Period | Assignment3/app/src/main/java/com/luutuanhoang/assignment3/ui/screens/CompletedTasksScreen.kt:35-52 | "Unknown" exactly without a completion date. Otherwise the first match of today, yesterday, strictly after the week's Monday, strictly after the month's first day, strictly after the year's first day, else the year printed as a number |
| CompletedTasks.BoundariesAreStrict | Assignment3/app/src/main/java/com/luutuanhoang/assignment3/ui/screens/CompletedTasksScreen.kt:48-51 | A completion on the first day of the week, month or year falls through to the next case |
| CompletedTasks.FirstDays | Assignment3/app/src/main/java/com/luutuanhoang/assignment3/ui/screens/CompletedTasksScreen.kt:38-40 | On a Monday nothing earlier is "This Week"; on a Monday the first of the month, nothing earlier is "This Month" either |
| CompletedTasks.YearSortKey | Assignment3/app/src/main/java/com/luutuanhoang/assignment3/ui/screens/CompletedTasksScreen.kt:53-62 | A year label ranks 1000 plus the year |
| CompletedTasks.SortKeyOrder | Assignment3/app/src/main/java/com/luutuanhoang/assignment3/ui/screens/CompletedTasksScreen.kt:53-62 | Today < Yesterday < This Week < This Month < This Year < Unknown (1999) < years from 1000 on, ascending |
| CompletedTasks.SortKeyInjective | Assignment3/app/src/main/java/com/luutuanhoang/assignment3/ui/screens/CompletedTasksScreen.kt:42-62 | For years from 1000 on, two periods with the same rank are the same period |
| CompletedTasks.KeyIndex | Assignment3/app/src/main/java/com/luutuanhoang/assignment3/ui/screens/CompletedTasksScreen.kt:42 | The position of the first group with a name, or the length when there is none |
| CompletedTasks.AddToGroup | Assignment3/app/src/main/java/com/luutuanhoang/assignment3/ui/screens/CompletedTasksScreen.kt:42 | `groupBy`'s step: a new key opens a group at the end, a known key's group gains the element at its end |
| CompletedTasks.AddToGroupFacts | Assignment3/app/src/main/java/com/luutuanhoang/assignment3/ui/screens/CompletedTasksScreen.kt:42 | A step keeps names distinct and in place and changes only the element's group |
| CompletedTasks.GroupByNames | Assignment3/app/src/main/java/com/luutuanhoang/assignment3/ui/screens/CompletedTasksScreen.kt:42 | Group names are distinct and every element's key names a group |
| CompletedTasks.GroupStep | Assignment3/app/src/main/java/com/luutuanhoang/assignment3/ui/screens/CompletedTasksScreen.kt:42 | After adding an element, each group still holds exactly the elements with its key and is not empty |
| CompletedTasks.GroupByCorrect | Assignment3/app/src/main/java/com/luutuanhoang/assignment3/ui/screens/CompletedTasksScreen.kt:42-52 | `groupBy`: distinct names, each group exactly the elements with its key in list order and non-empty, and every element in a group |
| CompletedTasks.Put | Assignment3/app/src/main/java/com/luutuanhoang/assignment3/ui/screens/CompletedTasksScreen.kt:53 | A sorted-map put adds at most one entry |
| CompletedTasks.PutEntries | Assignment3/app/src/main/java/com/luutuanhoang/assignment3/ui/screens/CompletedTasksScreen.kt:53 | After a put every entry is an old one or has the new key's rank |
| CompletedTasks.PutSorted | Assignment3/app/src/main/java/com/luutuanhoang/assignment3/ui/screens/CompletedTasksScreen.kt:53 | A put keeps the map strictly ordered by rank |
| CompletedTasks.PutFresh | Assignment3/app/src/main/java/com/luutuanhoang/assignment3/ui/screens/CompletedTasksScreen.kt:53 | A key of a new rank adds exactly its entry |
| CompletedTasks.PutCollision | Assignment3/app/src/main/java/com/luutuanhoang/assignment3/ui/screens/CompletedTasksScreen.kt:53 | A key whose rank is present keeps the present key and replaces its value |
| CompletedTasks.ToSortedMap | Assignment3/app/src/main/java/com/luutuanhoang/assignment3/ui/screens/CompletedTasksScreen.kt:53 | The map has at most as many entries as there were groups |
| CompletedTasks.ToSortedMapCorrect | Assignment3/app/src/main/java/com/luutuanhoang/assignment3/ui/screens/CompletedTasksScreen.kt:53-62 | The map is strictly ordered by rank, and with distinct ranks holds exactly the groups |
| CompletedTasks.SortedSameEntries | Assignment3/app/src/main/java/com/luutuanhoang/assignment3/ui/screens/CompletedTasksScreen.kt:53-62 | An ordered map with the groups' entries has distinct names and finds every group |
| CompletedTasks.GroupNameWitness | Assignment3/app/src/main/java/com/luutuanhoang/assignment3/ui/screens/CompletedTasksScreen.kt:42 | Every group is named after the key of some element |
| CompletedTasks.PeriodRanksDistinct | Assignment3/app/src/main/java/com/luutuanhoang/assignment3/ui/screens/CompletedTasksScreen.kt:42-62 | With years from 1000 on, the period groups have distinct ranks |
| CompletedTasks.GroupedCorrect | Assignment3/app/src/main/java/com/luutuanhoang/assignment3/ui/screens/CompletedTasksScreen.kt:32-62 | With years from 1000 on, the screen lists each period once in rank order. Each group holds exactly the done tasks of its period in stored order, and every done task is in its period's group |
| CompletedTasks.YearNineNineNineHidesUnknown | Assignment3/app/src/main/java/com/luutuanhoang/assignment3/ui/screens/CompletedTasksScreen.kt:51-60 | A task done in year 999 ranks like "Unknown", so the map lists it under "Unknown" and drops the undated task |
| Statistics.CompletedCount | Assignment3/app/src/main/java/com/luutuanhoang/assignment3/ui/screens/StatisticsScreen.kt:51 | The completed count is at most the total |
| Statistics.CompletedCountExtremes | Assignment3/app/src/main/java/com/luutuanhoang/assignment3/ui/screens/StatisticsScreen.kt:50-51 | The count is 0 exactly when no task is done, and the total exactly when every task is |
| Statistics.CountsAddUp | Assignment3/app/src/main/java/com/luutuanhoang/assignment3/ui/screens/StatisticsScreen.kt:50-52 | Completed plus incomplete is the total, and incomplete counts the open tasks |
| Statistics.PriorityCountsAddUp | Assignment3/app/src/main/java/com/luutuanhoang/assignment3/ui/screens/StatisticsScreen.kt:56-58 | High plus medium plus low is the total |
| Statistics.Percent | Assignment3/app/src/main/java/com/luutuanhoang/assignment3/ui/screens/StatisticsScreen.kt:53 | The percentage rounded down: in 0..100, 0 for none, 100 for all |
| Statistics.CompletionRate | Assignment3/app/src/main/java/com/luutuanhoang/assignment3/ui/screens/StatisticsScreen.kt:53 | In 0..100, 0 with no tasks or none done, 100 with all done, otherwise the floor of the completed percentage |
| Statistics.ThisWeekCount | Assignment3/app/src/main/java/com/luutuanhoang/assignment3/ui/screens/StatisticsScreen.kt:61-63 | Counts only done tasks, so never more than the completed count |
| Statistics.ThisWeekCountStep | Assignment3/app/src/main/java/com/luutuanhoang/assignment3/ui/screens/StatisticsScreen.kt:61-63 | The weekly count is 0 for no tasks and grows by one exactly for a done task completed strictly after seven days before now; an undated task never counts |
| Statistics.TodayCount | Assignment3/app/src/main/java/com/luutuanhoang/assignment3/ui/screens/StatisticsScreen.kt:65-67 | Counts only done tasks, so never more than the completed count |
| Statistics.TodayWithinWeek | Assignment3/app/src/main/java/com/luutuanhoang/assignment3/ui/screens/StatisticsScreen.kt:61-67 | Everything completed today is counted in this week |
| Statistics.TodayCountIsTodayGroup | Assignment3/app/src/main/java/com/luutuanhoang/assignment3/ui/screens/StatisticsScreen.kt:65-67 | The today count is the size of the completed screen's "Today" group |
| Statistics.CompletionData | Assignment3/app/src/main/java/com/luutuanhoang/assignment3/ui/screens/StatisticsScreen.kt:70-77 | No tasks: a single "No Tasks" segment of 1. Otherwise Completed and Incomplete with the two counts, adding up to the total |
| Statistics.SumValuesAppend | Assignment3/app/src/main/java/com/luutuanhoang/assignment3/ui/screens/StatisticsScreen.kt:70-87 | Segment totals add over concatenation |
| Statistics.PriorityDataCorrect | Assignment3/app/src/main/java/com/luutuanhoang/assignment3/ui/screens/StatisticsScreen.kt:79-87 | High, Medium, Low in that order with the empty ones left out; every value positive; values add up to the total |

## Left out

- Rendering is not modelled: Compose layouts, cards, colours, `IndexScreen`, the pager fragment and adapter, chip and dialog construction, and the navigation graph. It has no behaviour beyond the state it shows.
- Pie-chart geometry is not modelled: angles, label trigonometry and percentage labels are floating-point drawing code.
- Persistence is not modelled: Room, the view model's coroutines, the database's id generation and its `ORDER BY` ordering. `insertTask` uses `OnConflictStrategy.REPLACE` with an auto-generated id, so an insert always adds a new row; the model appends the task with the form's id 0 instead. The store is a list keyed by id, and a screen's input is whatever list the database delivers.
- Calendar code is not modelled: `LocalDateTime` parsing and formatting, date and time pickers, and the week/month/year arithmetic of `LocalDate`. They are library code; they appear as parameters (`format`, `parse`, `yearOf`, and the day-of-week/month/year of today).
- Seconds and nanoseconds of date-times are not modelled: date-times are kept to the minute.
- "Now" is one value: the statistics screen reads the clock separately in each counting lambda.
- Animation delays and the `tasksBeingCompleted`/`tasksBeingDeleted` sets are not modelled: they are timing plumbing.
- The media player, logging, and Intent/Bundle/Parcelable transport are not modelled: they are platform I/O. The result's extras are a record of optional fields.
- Ratings are never computed with: they are `Float`s that are only stored, so each is kept as its 32-bit pattern.
- Booking state across rotation is not modelled: the booking screen does not save it.
- Aliasing in `updateRentalItem` is not modelled. It writes into a shared mutable list, while the model returns a new catalogue.
- String lengths are counted in characters, not UTF-16 code units: titles and descriptions outside the Basic Multilingual Plane would measure differently.
- The description error's message is not modelled: only its presence.
- Two unit tests are not taken as oracles. `ScoreManagerUT.kt:53-73` expects a fall on hold 0 to cost points, and `ScoreManagerUT.kt:96-103` expects 1 point after climb, fall, climb. The code does neither, and the model follows the code (`ScoreManager.Fall`, `ScoreManager.ClimbFallClimb`).
- Statistics.CompletionRate: states the exact floor of the percentage. The source divides in `Float` before truncating, which may differ by one from the exact floor for some counts; only the exact cases 0, 100 and the bounds carry over.
- Booking.Save: charges the screen's local balance exactly. The source's `balance -= neededBalance` is a 32-bit subtraction too, but that local balance is never read after the screen finishes.
- RentalService.AddBalance: does not model 32-bit overflow of the balance. Adding to a balance near `Int.MAX_VALUE` wraps in the source.
- Decimal.ParseInt: accepts ASCII digits only. Kotlin's `toIntOrNull` also accepts other Unicode decimal digits.
- CompletedTasks.GroupedCorrect: requires completion years from 1000 on. For earlier years, a year label can share a sort key with another label. `CompletedTasks.YearNineNineNineHidesUnknown` shows the year-999 case swallowing "Unknown".

## Findings

| source | as written | input that shows it | evidently intended | confidence | as-written member | corrected member |
|---|---|---|---|---|---|---|
| Assignment2/app/src/main/java/com/luutuanhoang/assignment2/BookingActivity.kt:153-154 | the total `pricePerMonth * months` is a 32-bit `Int` product, and it also gates the warning (line 183) and the save button (line 204) | the drum kit (250 a month) for 8,589,935 months on a balance of 0: the total wraps to -2,147,483,546, so saving is enabled and succeeds (the main screen's charge then corrupts the balance, next row) | the exact price, refusing a booking the account cannot cover | not executed | Booking.TotalWrapsAsWritten | Booking.Save |
| Assignment2/app/src/main/java/com/luutuanhoang/assignment2/MainActivity.kt:49 | the charge `currentItem.pricePerMonth * months` is a 32-bit `Int` product, and `deductBalance` only checks that the balance covers it | the same booking returned OK with 8,589,935 months on a balance of 0: the charge wraps to -2,147,483,546, the check passes and `balance -= amount` (RentalService.kt:64) subtracts it in 32 bits: a balance of 0 becomes 2,147,483,546, and the launch balance of 5000 wraps to -2,147,478,750 (any balance from 102 on wraps negative) | charge the exact price, refusing a booking the account cannot cover | not executed | RentalMain.ChargeWrapsAsWritten | RentalMain.ApplyResult |
