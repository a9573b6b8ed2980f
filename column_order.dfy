/** The client sends the `features` array in its own column order and the service binds
    a list by position to its own column order: the two orders must be the same. */
module ColumnOrder {
  import FormValidation
  import PredictServer

  /** The client's and the service's column orders are the same sequence. */
  lemma ClientAndServerColumnsAgree()
    ensures FormValidation.Columns == PredictServer.Columns
  {
  }

  /** So a list the client sends binds each value to the column the client meant. */
  lemma ClientListBindsToClientColumns<L>(xs: seq<L>)
    requires |xs| == |FormValidation.Columns|
    ensures forall j :: 0 <= j < |xs| ==>
      FormValidation.Columns[j] in PredictServer.Zip(PredictServer.Columns, xs)
      && PredictServer.Zip(PredictServer.Columns, xs)[FormValidation.Columns[j]] == xs[j]
  {
    ClientAndServerColumnsAgree();
    PredictServer.ColumnsDistinct();
    PredictServer.ZipBindsPositionally(PredictServer.Columns, xs);
  }
}
