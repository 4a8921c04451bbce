/**
 * The second copy of the reward selection (src/lib/reward-helpers.ts).
 * Its random helper, `randomNumberFromRange`, is imported from
 * game-helpers, which does not define it; it is modelled by the same
 * random-integer oracle as `randomInt`.
 */
module RewardHelpers {
  import opened GameHelpers
  import BoardSetup

  /**
   * `selectBackgroundImage`: an unseen image when there is one, otherwise
   * any image of the catalogue, 1 for an empty catalogue, with the path
   * `/assets/<n>.png`.
   */
  function SelectBackgroundImage(unlockedImages: seq<int>, allRewardImages: seq<int>,
                                 draw: nat): (r: BoardSetup.BackgroundImage)
    ensures (exists n :: n in allRewardImages && n !in unlockedImages) ==>
      r.imageNumber in allRewardImages && r.imageNumber !in unlockedImages
    ensures |allRewardImages| > 0 ==> r.imageNumber in allRewardImages
    ensures |allRewardImages| == 0 ==> r.imageNumber == 1
    ensures r.imageUrl == BoardSetup.ImageUrl(r.imageNumber)
  {
    var unseenImages := BoardSetup.Unseen(allRewardImages, unlockedImages);
    BoardSetup.UnseenNonEmpty(allRewardImages, unlockedImages);
    var availableImages := if |unseenImages| > 0 then unseenImages else allRewardImages;
    var i := RandomInt(0, |availableImages| - 1, draw);
    var chosenNumber := if 0 <= i < |availableImages| then availableImages[i] else 1;
    BoardSetup.BackgroundImage(chosenNumber, BoardSetup.ImageUrl(chosenNumber))
  }

  /** Both copies choose the same image for the same draw. */
  lemma AgreesWithBoardSetup(unlockedImages: seq<int>, allRewardImages: seq<int>, draw: nat)
    ensures SelectBackgroundImage(unlockedImages, allRewardImages, draw)
         == BoardSetup.SelectBackgroundImage(unlockedImages, allRewardImages, draw)
  {
  }
}
