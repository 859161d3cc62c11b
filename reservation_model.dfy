/**
 * The reservation record of app/Models/Reservation.php with its table-id
 * column `reservation_tables_ids`, a comma-separated string, and the two
 * helpers that read it as a list and write a list into it.
 */
module ReservationModel {
  import opened Strings

  class Reservation {
    var userId: nat
    var restaurantId: nat
    var tablesIds: string
    var datetime: int
    var status: string

    constructor (userId: nat, restaurantId: nat, tablesIds: string, datetime: int, status: string)
      ensures this.userId == userId && this.restaurantId == restaurantId && this.tablesIds == tablesIds
      ensures this.datetime == datetime && this.status == status
    {
      this.userId := userId;
      this.restaurantId := restaurantId;
      this.tablesIds := tablesIds;
      this.datetime := datetime;
      this.status := status;
    }

    /**
     * `getTablesIdsArray`: one id more than the column has commas, none
     * containing a comma, and joining them again gives the column back.
     */
    function GetTablesIdsArray(): (ids: seq<string>)
      reads this
      ensures |ids| == Occurrences(tablesIds, ',') + 1
      ensures forall i :: 0 <= i < |ids| ==> ',' !in ids[i]
      ensures Join(ids, ',') == tablesIds
    {
      JoinSplit(tablesIds, ',');
      Split(tablesIds, ',')
    }

    /**
     * `setTablesIdsArray`: writes the comma join of `ids` into the column
     * and touches no other field; a non-empty list of comma-free ids reads
     * back as itself.
     */
    method SetTablesIdsArray(ids: seq<string>)
      modifies this
      ensures tablesIds == Join(ids, ',')
      ensures userId == old(userId) && restaurantId == old(restaurantId)
      ensures datetime == old(datetime) && status == old(status)
      ensures |ids| >= 1 && (forall i :: 0 <= i < |ids| ==> ',' !in ids[i]) ==> GetTablesIdsArray() == ids
    {
      tablesIds := Join(ids, ',');
      if |ids| >= 1 && forall i :: 0 <= i < |ids| ==> ',' !in ids[i] {
        SplitJoin(ids, ',');
      }
    }
  }

  /**
   * Reading the ids and writing them back leaves the column as it was, for
   * every column value.
   */
  method RewriteTablesIds(r: Reservation)
    modifies r
    ensures r.tablesIds == old(r.tablesIds)
    ensures r.userId == old(r.userId) && r.restaurantId == old(r.restaurantId)
    ensures r.datetime == old(r.datetime) && r.status == old(r.status)
  {
    var ids := r.GetTablesIdsArray();
    r.SetTablesIdsArray(ids);
  }

  /** The empty list does not survive the round trip: it is written as "" and read back as one empty id. */
  lemma EmptyListReadsBackAsOneEmptyId()
    ensures Split(Join([], ','), ',') == [""]
  {
  }
}
