# ChurnXplain prediction service and dashboard logic, in Dafny

ChurnXplain is a customer-churn demo with two parts. A Flask service answers `POST /predict` with a churn prediction and the top five SHAP attributions for each customer record. A Streamlit dashboard lets admins sign up, log in, send data to the service and browse a prediction history. This project models the hand-written logic of both parts and proves properties about it.

- `ranking.dfy` (module `Ranking`) covers per-row attribution ranking. Each model feature is paired with its score. The pairs are sorted by absolute score, largest first, with a stable sort, and the first five are kept. Sorting is an insertion sort written as a function, with the same result as Python's stable `sorted(..., reverse=True)`.
- `prediction_service.dfy` (module `PredictionService`) covers the `predict` handler:
  - input-shape dispatch;
  - the loop that adds every missing feature as a column of zeros (a `for` loop over a frame value);
  - projection onto the model's feature list;
  - the loop that builds one result per row;
  - the error responses.
  The model's probabilities and labels and the explainer's SHAP values come from one opaque function, `infer`, applied to the reconciled table. That function may also fail.
- `dashboard.dfy` (module `Dashboard`) covers:
  - the username and password rules;
  - the account store with signup;
  - the session with login and logout;
  - the history log with append, load, clear and "latest";
  - the loop that records one history entry per prediction of a batch.
  Each JSON file store is a class whose field is `None` while the file does not exist.
- `wrappers.dfy` (module `Wrappers`) holds `Option`.

A feature gets 0 only when no record of the request has it. `pd.DataFrame(list_of_dicts)` leaves NaN, modelled as `Null`, where a record lacks a field that another record of the same batch has. `PredictionService.BatchCells` states this. The dashboard's upload path calls `fillna(0)` before sending, so it never sends such a batch.

The model's feature names are unique in XGBoost. The lemmas that promise "no feature repeated" take this as a precondition (`DistinctNames`).

## Model

| member | source | states |
|---|---|---|
| `Ranking.SortByMagnitude` | 04_backend_api.py:75 | the sorted list is a permutation of its input (same length, same multiset) and is non-increasing by absolute SHAP value |
| `Ranking.Attributions` | 04_backend_api.py:71-74 | one entry per model feature, entry `j` pairing `features[j]` with `shap[i][j]`; no feature twice when the feature names are unique |
| `Ranking.SortIsStable` | 04_backend_api.py:75 | for every magnitude, the entries with that magnitude appear in the sorted list in their input order (stable sort) |
| `Ranking.TopFeaturesSelects` | 04_backend_api.py:75 | `sorted(...)[:5]` has `min(5, n)` entries, all drawn from the input (sub-multiset), ranked by magnitude, and no feature appears twice if none appeared twice in the input |
| `Ranking.RankRowDominates` | 04_backend_api.py:71-75 | no attribution of a row left out of its `top_features` has a larger absolute value than one kept |
| `Ranking.TopFeaturesDominate` | 04_backend_api.py:75 | an entry left out of the top five never has a larger absolute value than an entry kept |
| `Ranking.TopFeaturesStable` | 04_backend_api.py:75 | entries with equal absolute value appear in the top five in their original feature order |
| `Ranking.TopFeatures` | 04_backend_api.py:75 | `sorted(...)[:5]` is a prefix of the stable magnitude sort, of length `min(5, n)`, ranked by magnitude |
| `Ranking.RankRow` | 04_backend_api.py:71-75 | a row's ranked entries: `min(5, F)` (F the number of features) of them, a prefix of the sorted attribution list, ranked by magnitude |
| `Ranking.RankRowSpec` | 04_backend_api.py:71-75 | a row's `top_features` has `min(5, F)` (F the number of features) entries; each is some `(features[j], shap[i][j])`; no feature repeats when feature names are unique; the list is ranked and stable |
| `PredictionService.ToFrame` | 04_backend_api.py:37-42 | an object gives exactly one row (itself), an array gives one row per element with every field kept, and any other value gives no table |
| `PredictionService.AddMissingColumns` | 04_backend_api.py:47-50 | afterwards the columns are the old ones plus every feature; an absent column holds 0 in every row, and a present column keeps its values |
| `PredictionService.CellOf` | 04_backend_api.py:47-50 | a column the frame has keeps the row's value; a column it lacks holds 0 |
| `PredictionService.ReconciledTable` | 04_backend_api.py:47-53 | one vector per row with one cell per feature, in feature order; a feature that is a column holds the row's value, any other holds 0 |
| `PredictionService.Reconcile` | 04_backend_api.py:37-53 | a table exists exactly for an object or an array body, and every row has exactly one cell per feature |
| `PredictionService.Project` | 04_backend_api.py:52-53 | the projected table has one row per input row and one value per model feature, in the model's feature order: cell `k` of row `i` is row `i`'s value for `features[k]` |
| `PredictionService.BuildResults` | 04_backend_api.py:69-81 | one result per row; result `i` is built from row `i` (label, probability, top features of row `i`), in input order |
| `PredictionService.RowResult` | 04_backend_api.py:71-80 | result `i` has label `i`, probability `i` and `top_features == RankRow` of row `i`: ranked by absolute value, none left out larger than one kept, ties in feature order |
| `PredictionService.Predict` | 04_backend_api.py:33-87 | an unparsable body gives 500 with its reason; a non-object, non-array body gives 400 "Invalid input format"; otherwise the reconciled table goes to inference, whose failure (or too-short output) gives 500; on success there is one result per row, built from that row |
| `PredictionService.ReconcileShape` | 04_backend_api.py:37-53 | a table exists iff the body is an object or an array; it has 1 row or one row per element; every row has exactly one value per feature |
| `PredictionService.SingleRecordCells` | 04_backend_api.py:38-53 | for a single object, feature `k` holds the record's value, or 0 when the record lacks it |
| `PredictionService.BatchCells` | 04_backend_api.py:40-53 | in a batch, feature `k` of row `i` holds the record's value if present; NaN (`Null`) if only some other record has it; 0 if no record has it |
| `PredictionService.ExtraFieldsIgnored` | 04_backend_api.py:47-53 | two single records that agree on the model's features reconcile to the same table |
| `PredictionService.ExtraFieldsIgnoredInBatch` | 04_backend_api.py:47-53 | two batches whose records agree on the features, position by position, reconcile to the same table |
| `PredictionService.UnknownFieldsDropped` | 04_backend_api.py:52-53 | adding non-feature fields to a record leaves its reconciled row unchanged |
| `Dashboard.ValidUsername` | 05_frontend_dashboard.py:31-32 | holds iff the name has at least 8 characters and its first six are `admin_` |
| `Dashboard.ValidPassword` | 05_frontend_dashboard.py:34-35 | holds iff the password has at least 6 characters and some character is a digit |
| `Dashboard.CredentialExamples` | 05_frontend_dashboard.py:31-35 | `adm_123` is rejected and `admin_123` accepted; `abcdef` is rejected and `abc123` accepted |
| `Dashboard.UserStore.constructor` | 05_frontend_dashboard.py:21-25 | a new account store has no file |
| `Dashboard.UserStore.Load` | 05_frontend_dashboard.py:21-25 | an absent file loads as the empty account map; a present one loads as its contents |
| `Dashboard.UserStore.Save` | 05_frontend_dashboard.py:27-29 | the stored file becomes exactly the given account map |
| `Dashboard.CheckSignup` | 05_frontend_dashboard.py:100-107 | the outcome follows the ordered chain exactly: username rule first, then password rule, then the duplicate check, then success |
| `Dashboard.Signup` | 05_frontend_dashboard.py:100-110 | the outcome is the chain's verdict on the loaded accounts; on success the file holds the old accounts plus `user ↦ {password}`; on failure the file is untouched |
| `Dashboard.SignupAddsOneAccount` | 05_frontend_dashboard.py:108-109 | a successful signup adds exactly one key, keeps every other account unchanged, and keeps all stored accounts within the rules |
| `Dashboard.SignupNeverOverwrites` | 05_frontend_dashboard.py:105-106 | signup never succeeds for an existing username |
| `Dashboard.SignupThenLogin` | 05_frontend_dashboard.py:89 | after a successful signup the new credentials authenticate, and for every other username authentication is unchanged |
| `Dashboard.LoginImpliesValidCredentials` | 05_frontend_dashboard.py:89 | when every stored account came through signup, anyone who logs in has a valid username and password |
| `Dashboard.Authenticates` | 05_frontend_dashboard.py:89 | authentication implies the user is a key whose stored password equals the given one; an unknown user never authenticates |
| `Dashboard.Session.constructor` | 05_frontend_dashboard.py:73-76 | a new session is logged out with an empty username |
| `Dashboard.Session.Login` | 05_frontend_dashboard.py:88-95 | succeeds iff the user is a key and the stored password equals the given one exactly; success sets `logged_in` and `username`; failure leaves the session unchanged |
| `Dashboard.Session.Logout` | 05_frontend_dashboard.py:238-240 | sets `logged_in` to false and `username` to "" |
| `Dashboard.HistoryStore.constructor` | 05_frontend_dashboard.py:46-50 | a new history store has no file |
| `Dashboard.HistoryStore.Load` | 05_frontend_dashboard.py:46-50 | an absent file loads as `[]`; a present one loads as its contents |
| `Dashboard.HistoryStore.Append` | 05_frontend_dashboard.py:37-44 | the stored log becomes the old log (empty if absent) followed by the new entry |
| `Dashboard.HistoryStore.Clear` | 05_frontend_dashboard.py:52-54 | the file is absent afterwards and loading gives `[]`, whatever the old state; clearing is idempotent |
| `Dashboard.Latest` | 05_frontend_dashboard.py:226 | there is no latest entry exactly when the log is empty; otherwise the latest is an entry of the log |
| `Dashboard.LatestAfterAppend` | 05_frontend_dashboard.py:226 | right after an entry is saved, it is the latest entry |
| `Dashboard.AppendsLoadBack` | 05_frontend_dashboard.py:37-50 | N appends to an absent store load back as exactly those N entries, in order |
| `Dashboard.NatToString` | 05_frontend_dashboard.py:155 | a non-empty string of digits, with no leading zero, whose decimal value is `n` |
| `Dashboard.CustomerLabel` | 05_frontend_dashboard.py:155 | `Customer ` followed by the decimal numeral of `i + 1`: digits only, no leading zero, decimal value `i + 1` |
| `Dashboard.BatchEntries` | 05_frontend_dashboard.py:152-158 | one entry per prediction, with entry `i` holding timestamp `i`, the admin, the label `Customer {i+1}`, 100 × the churn probability, and that prediction's top features |
| `Dashboard.RecordPredictions` | 05_frontend_dashboard.py:145-158 | the log afterwards is the old log followed by one entry per prediction, in response order |

## Left out

- Data preparation, model training and the offline explainer script (`01_data_preprocessing.py`, `02_model_training.py`, `03_model_explain.py`): these are library calls into pandas, scikit-learn, XGBoost and SHAP, with floating-point statistics.
- Per-request `StandardScaler` refitting, `predict_proba`, `predict` and the SHAP explainer: these are folded into the opaque `infer` parameter of `PredictionService.Predict`. Any exception they raise shows up as `Failed`. This includes the scaler's error on an empty batch.
- `round(..., 4)` on the churn probability: floating-point rounding. Results carry the unrounded probability.
- Python floats and NaN: attribution scores are exact reals. The sort is not modelled for NaN keys.
- `PredictionService.Predict`: the text of the 500 response for inference output that is too short is not modelled (the contract states only the status). Exception messages are modelled as strings passed in.
- JSON arrays whose elements are not objects: pandas turns them into integer-named columns. The model takes an array as a sequence of records.
- Column order of the raw frame: records are maps. Order matters only after projection, which the model keeps.
- Flask routing, the `GET /` welcome text, JSON encoding, CORS and logging prints.
- Streamlit widgets, Plotly charts (`plot_shap_bar` re-sorts for display only), CSV preview and export, `requests.post`, and the HTTP status check on the dashboard side.
- `datetime.now()`: timestamps are parameters of `Dashboard.RecordPredictions`.
- The manual single-customer form (lines 162-197): it records its one result with the same `HistoryStore.Append` and is not modelled separately.
- File I/O and the unsynchronised read-modify-write race between dashboard sessions: each file is an in-memory optional value, and operations run one at a time.
- `Dashboard.ValidPassword`: counts only ASCII `0`-`9` as digits. Python's `str.isdigit` also accepts other Unicode digit characters.
- `Dashboard.Session.Login`: the accounts are passed in as the map loaded at the start of the script run (line 78), not reloaded at the button.
