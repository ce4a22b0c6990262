/**
 * The action buttons of a module in the module list.  Two observable
 * flags say whether the edit and the delete dialog are open; four actions
 * open and close them, and at most one of the two is ever open.
 */
module ModuleActionsDialogs {

  class ModuleActions {
    /** The `authed` prop: the edit and delete buttons are rendered only when it holds. */
    const authed: bool

    var editDialogOpen: bool
    var deleteDialogOpen: bool

    /** The two dialogs are never open together. */
    ghost predicate Valid()
      reads this
    {
      !(editDialogOpen && deleteDialogOpen)
    }

    constructor (authed: bool)
      ensures Valid()
      ensures this.authed == authed
      ensures !editDialogOpen && !deleteDialogOpen
    {
      this.authed := authed;
      editDialogOpen := false;
      deleteDialogOpen := false;
    }

    /** `onEditDialogClose`: closes the edit dialog; on a closed one it changes nothing. */
    method OnEditDialogClose()
      requires Valid()
      modifies this
      ensures Valid()
      ensures !editDialogOpen && deleteDialogOpen == old(deleteDialogOpen)
      ensures !old(editDialogOpen) ==> unchanged(this)
    {
      editDialogOpen := false;
    }

    /** `onClickEditModule`: opens the edit dialog and closes the delete dialog. */
    method OnClickEditModule()
      requires authed
      modifies this
      ensures Valid()
      ensures editDialogOpen && !deleteDialogOpen
    {
      editDialogOpen := true;
      deleteDialogOpen := false;
    }

    /** `onDeleteDialogClose`: closes the delete dialog; on a closed one it changes nothing. */
    method OnDeleteDialogClose()
      requires Valid()
      modifies this
      ensures Valid()
      ensures !deleteDialogOpen && editDialogOpen == old(editDialogOpen)
      ensures !old(deleteDialogOpen) ==> unchanged(this)
    {
      deleteDialogOpen := false;
    }

    /** `onClickDeleteModule`: opens the delete dialog and closes the edit dialog. */
    method OnClickDeleteModule()
      requires authed
      modifies this
      ensures Valid()
      ensures !editDialogOpen && deleteDialogOpen
    {
      editDialogOpen := false;
      deleteDialogOpen := true;
    }
  }
}
