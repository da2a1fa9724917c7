/** The `POST /predict` handler of the prediction service: the request body is
    turned into a table of customer records, every feature the model expects
    is added (as 0) when no record has it, the table is cut down to the model's
    feature list in the model's order, the model and the explainer score it,
    and each row becomes a result with its top five attributions. */
module PredictionService {
  import opened Wrappers
  import opened Ranking

  /** A cell of a customer record. `Null` stands for a JSON `null` and for the
      NaN that the table holds where a record lacks a field that another
      record of the same batch has. */
  datatype Scalar = Number(x: real) | Text(s: string) | Flag(b: bool) | Null

  /** The value a feature gets when no record of the request has it. */
  const Zero: Scalar := Number(0.0)

  /** A customer record: field name to value. */
  type Record = map<string, Scalar>

  /** The parsed request body: one object, an array of objects, or any other
      JSON value (string, number, boolean, null). */
  datatype Json = Object(record: Record) | Array(records: seq<Record>) | Other

  /** The request as the handler receives it; `Unreadable` is a body that the
      web framework fails to parse, with the failure's message. */
  datatype Body = Parsed(json: Json) | Unreadable(reason: string)

  /** A table whose rows all have exactly the columns in `columns`. */
  datatype Frame = Frame(columns: set<string>, rows: seq<Record>)

  /** Rows as value vectors, one entry per model feature, in the model's order. */
  type Table = seq<seq<Scalar>>

  /** What the model and the explainer produce for a table: per row a churn
      probability, a predicted label and one attribution score per feature; or
      the message of the exception they raised. */
  datatype Inference =
    | Scored(probabilities: seq<real>, labels: seq<int>, shapValues: seq<seq<real>>)
    | Failed(message: string)

  /** One element of the response array. */
  datatype PredictionResult = PredictionResult(prediction: int, churnProbability: real, topFeatures: seq<Attribution>)

  datatype Response = Results(results: seq<PredictionResult>) | Error(status: nat, message: string)

  const InvalidInputFormat := "Invalid input format"

  /** Every row has exactly the frame's columns. */
  predicate Rectangular(f: Frame) {
    forall i :: 0 <= i < |f.rows| ==> f.rows[i].Keys == f.columns
  }

  /** The columns of a table built from `records`: every field of any record. */
  function ColumnsOf(records: seq<Record>): set<string> {
    set i, c | 0 <= i < |records| && c in records[i] :: c
  }

  /** A record widened to `columns`; fields it lacks hold `Null`. */
  function Padded(rec: Record, columns: set<string>): Record {
    map c | c in columns :: if c in rec then rec[c] else Null
  }

  /** Input-shape dispatch: an object is one row, an array is one row per
      element, anything else is rejected. */
  function ToFrame(j: Json): (r: Option<Frame>)
    ensures r.Some? <==> j.Object? || j.Array?
    ensures r.Some? ==> Rectangular(r.value)
    ensures j.Object? ==> r.value.columns == j.record.Keys && r.value.rows == [j.record]
    ensures j.Array? ==> |r.value.rows| == |j.records|
    ensures j.Array? ==> forall i, c :: 0 <= i < |j.records| && c in j.records[i] ==>
                           c in r.value.columns && r.value.rows[i][c] == j.records[i][c]
  {
    match j
    case Object(rec) => Some(Frame(rec.Keys, [rec]))
    case Array(records) =>
      var columns := ColumnsOf(records);
      Some(Frame(columns, seq(|records|, i requires 0 <= i < |records| => Padded(records[i], columns))))
    case Other => None
  }

  /** The value that feature column `c` of row `i` holds once missing columns
      are added: the row's own value if the table has the column, else 0. */
  function CellOf(f: Frame, i: nat, c: string): (v: Scalar)
    requires Rectangular(f) && i < |f.rows|
    ensures c in f.columns ==> v == f.rows[i][c]
    ensures c !in f.columns ==> v == Zero
  {
    if c in f.columns then f.rows[i][c] else Zero
  }

  /** The reconciled table: one vector per row, one cell per model feature. */
  function ReconciledTable(f: Frame, features: seq<string>): (t: Table)
    requires Rectangular(f)
    ensures |t| == |f.rows|
    ensures forall i :: 0 <= i < |t| ==> |t[i]| == |features|
    ensures forall i, k :: 0 <= i < |t| && 0 <= k < |features| && features[k] in f.columns ==>
              t[i][k] == f.rows[i][features[k]]
    ensures forall i, k :: 0 <= i < |t| && 0 <= k < |features| && features[k] !in f.columns ==>
              t[i][k] == Zero
  {
    seq(|f.rows|, i requires 0 <= i < |f.rows| =>
      seq(|features|, k requires 0 <= k < |features| => CellOf(f, i, features[k])))
  }

  /** The table handed to the model for a request, or `None` when the body
      has the wrong shape. */
  function Reconcile(j: Json, features: seq<string>): (r: Option<Table>)
    ensures r.Some? <==> j.Object? || j.Array?
    ensures r.Some? ==> forall i :: 0 <= i < |r.value| ==> |r.value[i]| == |features|
  {
    match ToFrame(j)
    case Some(f) => Some(ReconciledTable(f, features))
    case None => None
  }

  /** Adds every feature the frame lacks as a column of zeros (one column at a
      time, in feature order); columns already present are left alone. */
  method AddMissingColumns(f: Frame, features: seq<string>) returns (g: Frame)
    requires Rectangular(f)
    ensures Rectangular(g)
    ensures |g.rows| == |f.rows|
    ensures forall c :: c in g.columns <==> c in f.columns || c in features
    ensures forall i, c :: 0 <= i < |g.rows| && c in g.columns ==> g.rows[i][c] == CellOf(f, i, c)
  {
    g := f;
    for k := 0 to |features|
      invariant Rectangular(g)
      invariant |g.rows| == |f.rows|
      invariant forall c :: c in g.columns <==> c in f.columns || c in features[..k]
      invariant forall i, c :: 0 <= i < |g.rows| && c in g.columns ==> g.rows[i][c] == CellOf(f, i, c)
    {
      var col := features[k];
      if col !in g.columns {
        var rows := g.rows;
        g := Frame(g.columns + {col}, seq(|rows|, i requires 0 <= i < |rows| => rows[i][col := Zero]));
      }
      assert features[..k + 1] == features[..k] + [col];
    }
    assert features[..|features|] == features;
  }

  /** `df[features]`: the frame's rows cut down to the model's features, in the
      model's order. */
  function Project(g: Frame, features: seq<string>): (t: Table)
    requires Rectangular(g)
    requires forall c :: c in features ==> c in g.columns
    ensures |t| == |g.rows|
    ensures forall i :: 0 <= i < |t| ==> |t[i]| == |features|
    ensures forall i, k :: 0 <= i < |t| && 0 <= k < |features| ==> t[i][k] == g.rows[i][features[k]]
  {
    seq(|g.rows|, i requires 0 <= i < |g.rows| =>
      seq(|features|, k requires 0 <= k < |features| => g.rows[i][features[k]]))
  }

  /** The model and explainer outputs reach every row and every feature; when
      they do not, indexing them raises and the request fails. */
  predicate CoversRows(inference: Inference, rows: nat, features: nat) {
    inference.Scored? &&
    |inference.probabilities| >= rows &&
    |inference.labels| >= rows &&
    |inference.shapValues| >= rows &&
    forall i :: 0 <= i < rows ==> |inference.shapValues[i]| >= features
  }

  /** The result reported for row `i`. */
  function RowResult(features: seq<string>, inference: Inference, i: nat): (r: PredictionResult)
    requires CoversRows(inference, i + 1, |features|)
    ensures r.prediction == inference.labels[i]
    ensures r.churnProbability == inference.probabilities[i]
    ensures |r.topFeatures| == Min(TopK, |features|)
    ensures r.topFeatures == RankRow(features, inference.shapValues[i])
    ensures RankedByMagnitude(r.topFeatures)
    ensures forall e, a :: e in Attributions(features, inference.shapValues[i]) && e !in r.topFeatures && a in r.topFeatures
                           ==> Magnitude(e) <= Magnitude(a)
    ensures forall m :: Ties(r.topFeatures, m) <= Ties(Attributions(features, inference.shapValues[i]), m)
    ensures forall a :: a in r.topFeatures ==>
              exists j :: 0 <= j < |features| && a == Attribution(features[j], inference.shapValues[i][j])
  {
    RankRowSpec(features, inference.shapValues[i]);
    RankRowDominates(features, inference.shapValues[i]);
    PredictionResult(
      inference.labels[i],
      inference.probabilities[i],
      RankRow(features, inference.shapValues[i]))
  }

  /** The loop that builds the response: one result per row, in row order. */
  method BuildResults(features: seq<string>, inference: Inference, rows: nat)
    returns (results: seq<PredictionResult>)
    requires CoversRows(inference, rows, |features|)
    ensures |results| == rows
    ensures forall i :: 0 <= i < rows ==> results[i] == RowResult(features, inference, i)
  {
    results := [];
    for i := 0 to rows
      invariant |results| == i
      invariant forall k :: 0 <= k < i ==> results[k] == RowResult(features, inference, k)
    {
      var featureImportance := Attributions(features, inference.shapValues[i]);
      var topFeatures := TopFeatures(featureImportance);
      results := results + [PredictionResult(inference.labels[i], inference.probabilities[i], topFeatures)];
    }
  }

  /** The whole handler. `infer` stands for the per-request rescaling, the
      model's `predict_proba`/`predict` and the explainer's `shap_values`,
      applied to the reconciled table. */
  method Predict(body: Body, features: seq<string>, infer: Table -> Inference) returns (resp: Response)
    ensures body.Unreadable? ==> resp == Error(500, body.reason)
    ensures body.Parsed? && !(body.json.Object? || body.json.Array?) ==> resp == Error(400, InvalidInputFormat)
    ensures body.Parsed? && Reconcile(body.json, features).Some? ==>
              var table := Reconcile(body.json, features).value;
              var inference := infer(table);
              && (inference.Failed? ==> resp == Error(500, inference.message))
              && (inference.Scored? && !CoversRows(inference, |table|, |features|) ==> resp.Error? && resp.status == 500)
              && (CoversRows(inference, |table|, |features|) ==>
                    && resp.Results?
                    && |resp.results| == |table|
                    && forall i :: 0 <= i < |table| ==> resp.results[i] == RowResult(features, inference, i))
  {
    match body
    case Unreadable(reason) =>
      resp := Error(500, reason);
    case Parsed(json) =>
      var frame := ToFrame(json);
      if frame.None? {
        resp := Error(400, InvalidInputFormat);
        return;
      }
      var df := AddMissingColumns(frame.value, features);
      var table := Project(df, features);
      assert table == ReconciledTable(frame.value, features) by {
        forall i | 0 <= i < |table|
          ensures table[i] == ReconciledTable(frame.value, features)[i]
        {
        }
      }
      var inference := infer(table);
      match inference
      case Failed(message) =>
        resp := Error(500, message);
      case Scored(_, _, _) =>
        if CoversRows(inference, |table|, |features|) {
          var results := BuildResults(features, inference, |table|);
          resp := Results(results);
        } else {
          resp := Error(500, "index out of range");
        }
  }

  /** After reconciliation every row has exactly one value per model feature:
      a feature no record has holds 0, one the record has keeps its value. A
      single object is one row and an array is one row per element. */
  lemma ReconcileShape(j: Json, features: seq<string>)
    ensures Reconcile(j, features).Some? <==> j.Object? || j.Array?
    ensures j.Object? ==> |Reconcile(j, features).value| == 1
    ensures j.Array? ==> |Reconcile(j, features).value| == |j.records|
    ensures Reconcile(j, features).Some? ==>
              forall i :: 0 <= i < |Reconcile(j, features).value| ==>
                |Reconcile(j, features).value[i]| == |features|
  {
  }

  /** A single object: each feature holds the record's value, or 0 when the
      record lacks it. */
  lemma {:induction false} SingleRecordCells(rec: Record, features: seq<string>, k: nat)
    requires k < |features|
    ensures Reconcile(Object(rec), features).Some?
    ensures Reconcile(Object(rec), features).value[0][k] ==
              if features[k] in rec then rec[features[k]] else Zero
  {
  }

  /** A batch: a feature the record has keeps its value; a feature that no
      record of the batch has holds 0; a feature that the record lacks but
      another record has holds `Null` (the table's NaN), not 0. */
  lemma BatchCells(records: seq<Record>, features: seq<string>, i: nat, k: nat)
    requires i < |records| && k < |features|
    ensures Reconcile(Array(records), features).Some?
    ensures Reconcile(Array(records), features).value[i][k] ==
              if features[k] in records[i] then records[i][features[k]]
              else if exists r :: r in records && features[k] in r then Null
              else Zero
  {
    var c := features[k];
    if c !in records[i] && exists r :: r in records && c in r {
      var r :| r in records && c in r;
      var p :| 0 <= p < |records| && records[p] == r;
      assert c in ColumnsOf(records);
    }
  }

  /** Two records agree on the model's features: the same features present,
      with the same values. */
  predicate AgreeOn(a: Record, b: Record, features: seq<string>) {
    forall c :: c in features ==> (c in a <==> c in b) && (c in a ==> a[c] == b[c])
  }

  /** Fields that are not model features never matter: records that agree on
      the features give the same table. */
  lemma ExtraFieldsIgnored(a: Record, b: Record, features: seq<string>)
    requires AgreeOn(a, b, features)
    ensures Reconcile(Object(a), features) == Reconcile(Object(b), features)
  {
    var ta := Reconcile(Object(a), features).value;
    var tb := Reconcile(Object(b), features).value;
    forall k | 0 <= k < |features| ensures ta[0][k] == tb[0][k] {
      SingleRecordCells(a, features, k);
      SingleRecordCells(b, features, k);
    }
    assert ta[0] == tb[0];
    assert ta == tb;
  }

  /** The same for a batch, record by record. */
  lemma ExtraFieldsIgnoredInBatch(a: seq<Record>, b: seq<Record>, features: seq<string>)
    requires |a| == |b|
    requires forall i :: 0 <= i < |a| ==> AgreeOn(a[i], b[i], features)
    ensures Reconcile(Array(a), features) == Reconcile(Array(b), features)
  {
    var ta := Reconcile(Array(a), features).value;
    var tb := Reconcile(Array(b), features).value;
    forall i, k | 0 <= i < |a| && 0 <= k < |features| ensures ta[i][k] == tb[i][k] {
      BatchCells(a, features, i, k);
      BatchCells(b, features, i, k);
      var c := features[k];
      if exists r :: r in a && c in r {
        var r :| r in a && c in r;
        var p :| 0 <= p < |a| && a[p] == r;
        assert b[p] in b && c in b[p];
      }
      if exists r :: r in b && c in r {
        var r :| r in b && c in r;
        var p :| 0 <= p < |b| && b[p] == r;
        assert a[p] in a && c in a[p];
      }
    }
    forall i | 0 <= i < |a| ensures ta[i] == tb[i] {
    }
    assert ta == tb;
  }

  /** Adding fields that are not model features to a record does not change
      its reconciled row. */
  lemma UnknownFieldsDropped(rec: Record, extra: Record, features: seq<string>)
    requires forall c :: c in extra ==> c !in features
    ensures Reconcile(Object(rec + extra), features) == Reconcile(Object(rec), features)
  {
    ExtraFieldsIgnored(rec + extra, rec, features);
  }
}
