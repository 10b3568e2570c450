# CC User Subscriptions: a Dafny model

CC User Subscriptions is a WordPress plugin. It attaches one per-user meta value, `cc_subscription` (a subscription end date kept as free text), to user records. It lets administrators who hold the `delete_others_pages` capability edit that value on the profile screen. It also shows the value as a sortable column in the users list table.

The model covers the plugin class's logic:

- **Save rule** (`meta_form_save`) is module `SubscriptionSave`.
  - The host's user-meta store is a map from (user id, meta key) to a value (module `UserMeta`).
  - The store logs every delete and update call it receives, so "no write happens" can be stated.
  - `Saved` and `SaveCalls` specify the resulting store and the calls issued. The loop over the meta keys is specified by folding one iteration, `SaveKey`, over the key list.
  - The method `MetaFormSave` runs that loop against a `MetaStore` object and is proved to match the specification.
  - PHP's `empty()` and string falsiness are modelled exactly: `""` and `"0"` are both empty.
- **List-table filters** are pure functions over column maps and the cell value, in module `SubscriptionList`.
- **Sort rewrite** (`sort_by_subscription_date`) is also in `SubscriptionList`.
  - It is a method on a `Query` object: the query variables plus the `query_from`, `query_where` and `query_orderby` fragments (module `UserQuery`).
  - It is proved equal to the specification function `Rewritten` on a snapshot of that object.
  - The current screen and the database handle's table names are parameters.

The foreign WordPress calls are inputs or abstract state:

- `current_user_can` is a boolean parameter.
- `$_POST` is a map of submitted fields.
- `get_user_meta`, `update_user_meta` and `delete_user_meta` act on the abstract store.
- `$current_screen` is an optional screen id.
- `$wpdb` is a pair of table names.

## Model

| member | source | states |
|---|---|---|
| `SubscriptionSave.MetaFormSave` | class-cc-user-subscriptions.php:156-180 | The store's new entries are `Saved(old entries)`. The calls it issued are exactly `SaveCalls(old entries)`, appended to the store's log. |
| `SubscriptionSave.SubmittedValue` | class-cc-user-subscriptions.php:165 | The new value is the posted field when the field is present and non-empty in PHP's sense. Otherwise it is `""`, so it is never `"0"`. |
| `SubscriptionSave.Decide` | class-cc-user-subscriptions.php:168-177 | Delete exactly when the new value is empty and the old one is not. Update to the new value exactly when the new value is non-empty and differs from the old one. Keep exactly when both are empty or they are equal. |
| `SubscriptionSave.SaveAction` | class-cc-user-subscriptions.php:164-177 | With the old value read under the loop key: a stored value equal to the submission gives no write. An update carries the posted value and differs from what is stored. A delete happens only when a non-empty value is stored. |
| `SubscriptionSave.SaveWithoutCapability` | class-cc-user-subscriptions.php:157-160 | Without the capability the store is unchanged and no call is issued. |
| `SubscriptionSave.SaveAllFrame` | class-cc-user-subscriptions.php:164-178 | The loop over any key list leaves every entry outside (this user, a listed key) unchanged, in presence and in value. |
| `SubscriptionSave.SaveFrame` | class-cc-user-subscriptions.php:162-178 | The hook changes at most the user's `cc_subscription` entry. Every other user and every other key is untouched. |
| `SubscriptionSave.SaveIsOneStep` | class-cc-user-subscriptions.php:162-164 | With the one-key list, the hook is exactly one iteration of the loop body, for both the store and the calls. |
| `SubscriptionSave.SaveEmptySubmission` | class-cc-user-subscriptions.php:165-170 | An empty or missing submission deletes a stored non-empty value with one delete call. If nothing is stored, or the stored value is empty, it changes nothing and issues no call. Afterwards the entry is absent exactly when it was absent or non-empty before. |
| `SubscriptionSave.SaveNonEmptySubmission` | class-cc-user-subscriptions.php:172-177 | A non-empty submission leaves exactly that value stored. An update call is issued if and only if the previously read value differs. |
| `SubscriptionSave.SaveKeepsNoEmptySubscription` | class-cc-user-subscriptions.php:165-176 | If no stored subscription is empty (`""` or `"0"`), that stays true after any save. An empty subscription is always represented by a missing entry. |
| `SubscriptionSave.SaveKeySettles` | class-cc-user-subscriptions.php:168-177 | After one iteration for a key, the rule's decision for that key is to keep. |
| `SubscriptionSave.SaveKeyLocal` | class-cc-user-subscriptions.php:165-175 | One iteration's decision, and the value it leaves, depend only on the value read for its own key. |
| `SubscriptionSave.SaveAllAt` | class-cc-user-subscriptions.php:164-178 | Over distinct keys, the loop leaves under each key the value that a single iteration for that key leaves. |
| `SubscriptionSave.SaveAllSettles` | class-cc-user-subscriptions.php:164-178 | Over distinct keys, after the loop every key's decision is to keep. |
| `SubscriptionSave.SaveAllFixpoint` | class-cc-user-subscriptions.php:164-178 | On a store where every key's decision is to keep, the loop changes nothing and issues no call. |
| `SubscriptionSave.SaveAllIdempotent` | class-cc-user-subscriptions.php:164-178 | Over distinct keys, a second run of the loop with the same form changes nothing and issues no call. |
| `SubscriptionSave.SaveIdempotent` | class-cc-user-subscriptions.php:156-180 | Submitting the same form twice has the effect of submitting it once. The second submission issues no store call. |
| `SubscriptionSave.SaveActionAsWritten` | class-cc-user-subscriptions.php:166-176 | As written, the old value is whatever the lookup under the undefined variable returns. An update is issued exactly when the submission is non-empty and differs from that value. |
| `SubscriptionSave.AsWrittenUpdatesEqualValue` | class-cc-user-subscriptions.php:166-175 | Counterexample: the stored value equals the submission and the lookup returns `""`. As written this issues an update; the corrected rule keeps the value. |
| `SubscriptionList.AddSubscriptionColumn` | class-cc-user-subscriptions.php:191-194 | The columns gain `cc_subscription` with the label `CC Subscription`. Every other column keeps its label. |
| `SubscriptionList.AddSubscriptionColumnIdempotent` | class-cc-user-subscriptions.php:191-194 | Applying the column filter twice equals applying it once. |
| `SubscriptionList.DeclareSortable` | class-cc-user-subscriptions.php:223-226 | The sortable columns gain `cc_subscription`, sorted by `cc_subscription`. Every other sortable column is kept. |
| `SubscriptionList.DeclareSortableIdempotent` | class-cc-user-subscriptions.php:223-226 | Applying the sortable filter twice equals applying it once. |
| `SubscriptionList.SubscriptionColumnContent` | class-cc-user-subscriptions.php:207-212 | Any column other than `cc_subscription` gets the passed-in cell unchanged. The subscription column gets the user's stored value, or `""` when none is stored. |
| `SubscriptionList.SaveThenList` | class-cc-user-subscriptions.php:207-212 | After a save, the listing cell for the user shows the submitted value when it was non-empty. It shows `""` when the submission was empty, provided no empty value was stored before. |
| `SubscriptionList.SortBySubscriptionDate` | class-cc-user-subscriptions.php:235-262 | The query object's new state is `Rewritten` of its old state, for the given screen and tables. |
| `SubscriptionList.RewriteChangesIffFires` | class-cc-user-subscriptions.php:238-253 | The query changes if and only if the screen is `users` and `orderby` is `cc_subscription`. |
| `SubscriptionList.RewriteEffect` | class-cc-user-subscriptions.php:245-260 | When it fires, the join and the meta-key filter are appended, so the old FROM and WHERE fragments are prefixes of the new ones. ORDER BY is replaced by `ORDER BY <usermeta>.meta_value <order>`, whatever it held before. `meta_key`, `meta_compare` and `orderby` become `cc_subscription`, `EXISTS` and `meta_value`. Every other query variable is kept. |
| `SubscriptionList.RewriteIdempotent` | class-cc-user-subscriptions.php:244-253 | A second rewrite leaves the query as the first left it. The first sets `orderby` to `meta_value`, so the guard fails the second time. |
| `UserMeta.MetaStore.Delete` | class-cc-user-subscriptions.php:170 | Deleting with an empty value removes the key's entry, whatever it held, and logs one delete call. |
| `UserMeta.MetaStore.Update` | class-cc-user-subscriptions.php:175 | Updating creates or overwrites the key's entry and logs one update call. |
| `UserQuery.Query.Set` | class-cc-user-subscriptions.php:251-253 | Setting a query variable changes that variable only. |

## Findings

| source | as written | input that shows it | evidently intended | confidence | as-written member | corrected member |
|---|---|---|---|---|---|---|
| class-cc-user-subscriptions.php:166 | The old value is looked up under `$fieldname`, a variable that is never defined, so the comparison at lines 169 and 174 does not use the stored `cc_subscription` value. | Stored `2024-01-01`, submitted `2024-01-01`, and the lookup under the undefined key returns anything else (for example `""`). The as-written rule issues an update of an unchanged value. | Look up the old value under the loop key `$meta_key`, as the comments at lines 168-177 describe. Re-submitting the stored value then makes no write. | high that the lookup is wrong; what the host returns for an undefined key is outside this model; not executed | `SubscriptionSave.AsWrittenUpdatesEqualValue` (about `SubscriptionSave.SaveActionAsWritten`) | `SubscriptionSave.SaveAction` |

## Left out

- `meta_form_markup` (lines 115-145) only renders HTML and a date-picker script behind the same capability check. Markup is not modelled.
- The constructor's hook registrations, `get_instance` and `get_plugin_slug` (lines 55-104), and `loader.php`, are host wiring with no logic of their own.
- Calls into WordPress are not reimplemented. The capability check, the submitted form, the current screen and the table names are parameters. The meta store and the query object are abstract state.
- SubscriptionSave.Decide: compares old and new values with plain string equality. PHP's loose `==` and `!=` treat two numeric-looking strings such as `"1"` and `"01"` as equal, and that case is not modelled.
- Slashing is not modelled. WordPress slashes posted data, and the meta API unslashes a value before storing it. Stored values are taken as submitted.
- `update_user_meta` has its own check that skips writing an unchanged value. The store model does not include it; the plugin's own guard already avoids such calls in the corrected rule.
- The store keeps one value per key, because the plugin always reads with `single = true`. Multiple values under one key are not modelled.
- Query variables are modelled as strings. An unset variable reads as `""`, which matches how PHP's `null` compares and interpolates here. Array-valued query variables are not modelled.
- The generated SQL is not run. The consequences of running it are database behaviour: the inner join drops users who have no subscription, and the dates sort as text. The fragments are modelled only as strings.
- Column order (display position) in the PHP arrays is not modelled. The column sets are maps.
