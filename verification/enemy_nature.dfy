/**
 * The steal nature and the drop nature of an enemy: how its common and rare
 * slots for one mechanic are filled. The two enums of the wiki code have the
 * same five members with the same meaning, so one datatype serves both.
 */
module Natures {

  datatype Nature =
    | CommonAndRare     // both slots hold an item, and the items differ
    | UniqueGuaranteed  // both slots hold the same item
    | CommonOnly        // only the common slot holds an item
    | RareOnly          // only the rare slot holds an item
    | NoItems           // neither slot holds an item
}
